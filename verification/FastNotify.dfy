/**
 The synchronous handlers: each call is queued, submitted and awaited by itself.
 They are the simple form against which batching is compared.
 */
module FastNotify {
  import opened IoUring
  import B = BatchSync

  datatype Pc = Idle | MustSubmit | Waiting | Returning

  datatype State = State(ring: Ring, pc: Pc, calls: seq<Req>, acked: nat)

  const INITIAL := State(EMPTY_RING, Idle, [], 0)

  datatype Event = Call(req: Req) | Submit | Complete(i: nat) | Reap | Return

  predicate Legal(s: State, e: Event) {
    match e
    case Call(_) => s.pc.Idle?
    case Submit => s.pc.MustSubmit?
    case Complete(i) => i in s.ring.inflight
    case Reap => s.pc.Waiting? && s.ring.ready > 0
    case Return => s.pc.Returning?
  }

  function Apply(s: State, e: Event): State
    requires Legal(s, e)
  {
    match e
    case Call(req) => s.(ring := s.ring.Queue(req), pc := MustSubmit, calls := s.calls + [req])
    case Submit => s.(ring := s.ring.Submit(), pc := Waiting)
    case Complete(i) => s.(ring := s.ring.Complete(i))
    case Reap => s.(ring := s.ring.Reap(), pc := Returning)
    case Return => s.(pc := Idle, acked := |s.calls|)
  }

  /** The steps taken since the start, the last one outermost. */
  datatype Trace = Start | Then(before: Trace, e: Event)

  predicate Run(t: Trace)
    decreases t, 0
  {
    match t
    case Start => true
    case Then(before, e) => Run(before) && Legal(After(before), e)
  }

  function After(t: Trace): State
    requires Run(t)
    decreases t, 1
  {
    match t
    case Start => INITIAL
    case Then(before, e) => Apply(After(before), e)
  }

  // ---------- Batching with patch_size 0 is this machine, step for step ----------

  /** The state of the synchronous handlers that a batching state stands for. */
  function Project(s: B.State): State {
    State(s.ring,
          match s.pc
          case Idle => Idle
          case MustSubmit => MustSubmit
          case Reaping(i) => if i < s.count then Waiting else Returning
          case Returning => Returning,
          s.calls, s.acked)
  }

  /** Leaving the wait loop is the one step the synchronous handlers do not have. */
  function ProjectEvent(e: B.Event): Event
    requires !e.Finish?
  {
    match e
    case Call(req) => Call(req)
    case Submit => Submit
    case Complete(i) => Complete(i)
    case Reap => Reap
    case Return => Return
  }

  /** With patch_size 0 or less, in every reachable state, the batching handlers can take
      a step exactly if the synchronous handlers can, with the same effect; only a return
      may have to leave the wait loop first, which the synchronous side does not notice. */
  lemma BatchOfOneIsSynchronous(patchSize: int, t: B.Trace, e: B.Event)
    requires patchSize <= 0 && B.Run(patchSize, t)
    ensures var s := B.After(patchSize, t);
      && (e.Finish? && B.Legal(s, e) ==> Project(B.Apply(patchSize, s, e)) == Project(s))
      && (!e.Finish? && B.Legal(s, e) ==>
            && Legal(Project(s), ProjectEvent(e))
            && Project(B.Apply(patchSize, s, e)) == Apply(Project(s), ProjectEvent(e)))
      && (!e.Finish? && Legal(Project(s), ProjectEvent(e)) ==>
            B.Legal(s, e) || (e.Return? && B.Legal(s, B.Finish)
                              && B.Legal(B.Apply(patchSize, s, B.Finish), e)))
  {
    B.InvKept(patchSize, t);
    var s := B.After(patchSize, t);
    match e
    case Call(_) => assert B.Counts(patchSize, s);
    case Submit => assert B.Counts(patchSize, s);
    case _ => assert B.Counts(patchSize, s);
  }

  /** The batching step that stands for a synchronous one. */
  function BatchEvent(e: Event): (b: B.Event)
    ensures !b.Finish? && ProjectEvent(b) == e
  {
    match e
    case Call(req) => B.Call(req)
    case Submit => B.Submit
    case Complete(i) => B.Complete(i)
    case Reap => B.Reap
    case Return => B.Return
  }

  /** Every synchronous run is the projection of a batching run. */
  lemma {:induction false} SynchronousRunIsBatching(patchSize: int, t: Trace) returns (u: B.Trace)
    requires patchSize <= 0 && Run(t)
    ensures B.Run(patchSize, u) && Project(B.After(patchSize, u)) == After(t)
  {
    match t
    case Start =>
      u := B.Trace.Start;
    case Then(before, e) =>
      u := SynchronousRunIsBatching(patchSize, before);
      var b := BatchEvent(e);
      BatchOfOneIsSynchronous(patchSize, u, b);
      if !B.Legal(B.After(patchSize, u), b) {
        BatchOfOneIsSynchronous(patchSize, u, B.Finish);
        u := B.Then(u, B.Finish);
        BatchOfOneIsSynchronous(patchSize, u, b);
      }
      u := B.Then(u, b);
  }

  /** And every batching run projects to a synchronous run. */
  lemma {:induction false} BatchingRunIsSynchronous(patchSize: int, u: B.Trace) returns (t: Trace)
    requires patchSize <= 0 && B.Run(patchSize, u)
    ensures Run(t) && After(t) == Project(B.After(patchSize, u))
  {
    match u
    case Start =>
      t := Trace.Start;
    case Then(before, e) =>
      t := BatchingRunIsSynchronous(patchSize, before);
      BatchOfOneIsSynchronous(patchSize, before, e);
      if !e.Finish? {
        t := Then(t, ProjectEvent(e));
      }
  }

  /** In every synchronous run, outside a call the ring is empty, and exactly the writes
      with a later fsync of their file are durable: nothing acknowledged by an fsync is lost. */
  lemma {:induction false} SynchronousReturnsWithEmptyRing(t: Trace)
    requires Run(t) && After(t).pc.Idle?
    ensures var s := After(t);
      && s.acked == |s.calls| && s.ring.ops == s.calls
      && s.ring.queue == [] && s.ring.NothingToWaitFor()
      && forall w: nat :: w in s.ring.durable <==>
           exists f: nat :: w < f < |s.calls| && s.calls[w].Write? && s.calls[f] == Fsync(s.calls[w].fd)
  {
    var u := SynchronousRunIsBatching(0, t);
    B.InvKept(0, u);
    var s := B.After(0, u);
    assert s.pc.Idle? && B.Counts(0, s);
    assert B.BatchSize(0) == 1 && s.flushed == |s.calls|;
    forall w: nat
      ensures w in s.ring.durable <==>
        exists f: nat :: w < f < |s.calls| && s.calls[w].Write? && s.calls[f] == Fsync(s.calls[w].fd)
    {
      if f: nat :| w < f < |s.calls| && s.calls[w].Write? && s.calls[f] == Fsync(s.calls[w].fd) {
        assert B.SyncedBy(s, w, f);
      }
      if B.Synced(s, w) {
        var f: nat :| B.SyncedBy(s, w, f);
        assert w < f;
      }
    }
  }

  // ---------- The handlers ----------

  class SyncHandlers {
    var ring: Ring

    /** The ring is at rest; its files hold the writes made so far. */
    ghost predicate Valid()
      reads this
    {
      && ring.queue == [] && ring.NothingToWaitFor()
      && forall w: nat :: w in ring.file <==> w < |ring.ops| && ring.ops[w].Write?
    }

    constructor ()
      ensures Valid() && ring == EMPTY_RING
    {
      ring := EMPTY_RING;
    }

    /** With one request in flight there is nothing to choose. */
    method WaitAndSeen(ghost i: nat)
      requires ring.ready == 0 && ring.inflight.Keys == {i}
      modifies this
      ensures ring == old(ring).Complete(i).Reap()
    {
      var k :| k in ring.inflight;
      assert k == i;
      ring := ring.Complete(k);
      ring := ring.Reap();
    }

    /** On return the write is in the file, but no more is durable than before. */
    method Write(fd: int, buf: seq<int>) returns (ret: int)
      requires Valid()
      modifies this
      ensures Valid() && ring.ops == old(ring).ops + [Req.Write(fd, buf)]
      ensures ring.file == old(ring).file + [|old(ring).ops|] && ring.durable == old(ring).durable
      ensures ret == |buf|
    {
      ghost var i := |ring.ops|;
      ring := ring.Queue(Req.Write(fd, buf));
      ring := ring.Submit();
      WaitAndSeen(i);
      ret := |buf|;
    }

    /** On return every earlier write to the file is durable. */
    method FdataSync(fd: int) returns (ret: int)
      requires Valid()
      modifies this
      ensures Valid() && ring.ops == old(ring).ops + [Fsync(fd)] && ring.file == old(ring).file
      ensures forall w: nat :: w in ring.durable <==>
        w in old(ring).durable || (w < |old(ring).ops| && old(ring).ops[w].Write? && old(ring).ops[w].fd == fd)
      ensures ret == 0
    {
      ghost var i := |ring.ops|;
      ring := ring.Queue(Fsync(fd));
      ring := ring.Submit();
      WaitAndSeen(i);
      ret := 0;
    }
  }
}
