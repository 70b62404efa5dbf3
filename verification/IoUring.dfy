/**
 The helper calls that queue requests on an io_uring, and what the kernel does
 with them: submitted requests are in flight and complete in any order.
 */
module IoUring {

  datatype Req = Write(fd: int, data: seq<int>) | Fsync(fd: int)

  const RING_ENTRIES := 1024

  /** A request is known by its index in `ops`.  `inflight` holds the submitted requests,
      each fsync with the writes to its file that had reached the file when it was
      submitted: these are durable once it completes, others need not be.
      `ready` counts completions not yet consumed, `file` lists the completed writes
      in the order of their completion. */
  datatype Ring = Ring(
    ops: seq<Req>,
    queue: seq<nat>,
    inflight: map<nat, set<nat>>,
    ready: nat,
    file: seq<nat>,
    durable: set<nat>)
  {
    /** io_uring_get_sqe and prep: a full queue takes nothing. */
    function Queue(req: Req): Ring {
      if |queue| >= RING_ENTRIES then this
      else this.(ops := ops + [req], queue := queue + [|ops|])
    }

    /** A write that does not go through the ring. */
    function WriteThrough(req: Req): Ring {
      this.(ops := ops + [req], file := file + [|ops|])
    }

    function Snapshot(i: nat): set<nat> {
      if i < |ops| && ops[i].Fsync?
      then set w | w in file && w < |ops| && ops[w].fd == ops[i].fd
      else {}
    }

    function Submit(): Ring {
      this.(inflight := inflight + (map i | i in queue :: Snapshot(i)), queue := [])
    }

    /** The kernel finishes request `i`. */
    function Complete(i: nat): Ring
      requires i in inflight
    {
      this.(inflight := inflight - {i},
            ready := ready + 1,
            file := if i < |ops| && ops[i].Write? then file + [i] else file,
            durable := durable + inflight[i])
    }

    /** io_uring_wait_and_seen returns only when a completion is ready. */
    function Reap(): Ring
      requires ready > 0
    {
      this.(ready := ready - 1)
    }

    /** A wait in this state never returns. */
    predicate NothingToWaitFor() { ready == 0 && inflight == map[] }
  }

  const EMPTY_RING := Ring([], [], map[], 0, [], {})

  /** Writes and fsyncs of one file in turn. */
  ghost predicate Alternating(ops: seq<Req>) {
    forall i :: 0 < i < |ops| ==>
      && ops[i].fd == ops[i - 1].fd
      && (ops[i].Write? <==> ops[i - 1].Fsync?)
  }

  lemma {:induction false} OneFile(ops: seq<Req>, i: nat, j: nat)
    requires Alternating(ops) && i <= j < |ops|
    ensures ops[i].fd == ops[j].fd
    decreases j
  {
    if i < j {
      OneFile(ops, i, j - 1);
    }
  }

  /** The writes among the requests numbered from `a` up to `b`. */
  function WritesIn(ops: seq<Req>, a: nat, b: nat): set<nat>
    requires b <= |ops|
  {
    set w | a <= w < b && ops[w].Write?
  }

  function One(b: bool): nat { if b then 1 else 0 }

  lemma OneMoreRequest(ops: seq<Req>, a: nat, b: nat)
    requires a <= b < |ops|
    ensures |WritesIn(ops, a, b + 1)| == |WritesIn(ops, a, b)| + One(ops[b].Write?)
  {
    var last := if ops[b].Write? then {b} else {};
    assert WritesIn(ops, a, b + 1) == WritesIn(ops, a, b) + last;
  }

  /** Among alternating requests every other one is a write. */
  lemma {:induction false} HalfAreWrites(ops: seq<Req>, a: nat, b: nat)
    requires Alternating(ops) && a < b <= |ops|
    ensures 2 * |WritesIn(ops, a, b)| == b - a + One(ops[a].Write?) + One(ops[b - 1].Write?) - 1
    decreases b - a
  {
    OneMoreRequest(ops, a, b - 1);
    if b - a == 1 {
      assert WritesIn(ops, a, a) == {};
    } else {
      HalfAreWrites(ops, a, b - 1);
      assert ops[b - 1].Write? <==> ops[b - 2].Fsync?;
    }
  }

  lemma SubsetSize<T>(a: set<T>, b: set<T>)
    requires a <= b
    ensures |a| <= |b|
  {
    assert b == a + (b - a);
  }

  /** `q` holds the requests numbered from `base` on. */
  predicate Consecutive(q: seq<nat>, base: nat) {
    forall k :: 0 <= k < |q| ==> q[k] == base + k
  }

  lemma {:induction false} ConsecutiveSize(q: seq<nat>, base: nat)
    requires Consecutive(q, base)
    ensures |set i: nat | i in q| == |q|
  {
    if q != [] {
      var front, last := q[..|q| - 1], q[|q| - 1];
      ConsecutiveSize(front, base);
      assert q == front + [last] && last !in front;
      assert (set i: nat | i in q) == (set i: nat | i in front) + {last};
    }
  }
}
