/**
 The search for the traced child process: breadth first over a process table,
 without a visited set.
 */
module ProcessSearch {
  import opened Arithmetic
  import opened Options
  import opened ProcessTable

  /** A line of descent: the first is a child of `root`, each next one a child of the one before. */
  ghost predicate Chain(table: seq<Proc>, root: int, chain: seq<Proc>) {
    && chain != []
    && (forall i :: 0 <= i < |chain| ==> chain[i] in table)
    && chain[0].ppid == root
    && forall i :: 0 < i < |chain| ==> chain[i].ppid == chain[i - 1].pid
  }

  /** `chain` leads from `root` to a process that the search looks for. */
  ghost predicate Leads(table: seq<Proc>, root: int, path: string, chain: seq<Proc>) {
    Chain(table, root, chain) && IsSslsniff(chain[|chain| - 1], path)
  }

  ghost predicate UniquePids(table: seq<Proc>) {
    forall i, j :: 0 <= i < j < |table| ==> table[i].pid != table[j].pid
  }

  ghost predicate OwnDescendant(table: seq<Proc>, root: int) {
    exists chain: seq<Proc> :: Chain(table, root, chain) && chain[|chain| - 1].pid == root
  }

  // ---------- The queue ----------

  /** children_by_parent.get(pid, []) */
  function Get(m: map<int, seq<Proc>>, pid: int): seq<Proc> {
    if pid in m then m[pid] else []
  }

  /** `depths` gives, for each queued process, the length of a line of descent to it. */
  ghost predicate Queued(table: seq<Proc>, root: int, queue: seq<Proc>, depths: seq<nat>) {
    && |depths| == |queue|
    && (forall i :: 0 <= i < |queue| ==> HasChain(table, root, queue[i], depths[i]))
    && (forall i, j :: 0 <= i < j < |depths| ==> depths[i] <= depths[j] <= depths[i] + 1)
  }

  ghost predicate HasChain(table: seq<Proc>, root: int, p: Proc, depth: nat) {
    exists chain: seq<Proc> :: Chain(table, root, chain) && |chain| == depth && chain[|chain| - 1] == p
  }

  /** The `j`-th process of `chain` is queued at its own depth. */
  ghost predicate OnTheWay(queue: seq<Proc>, depths: seq<nat>, chain: seq<Proc>, i: nat, j: nat) {
    i < |queue| && i < |depths| && j < |chain| && queue[i] == chain[j] && depths[i] == j + 1
  }

  ghost predicate Pending(queue: seq<Proc>, depths: seq<nat>, chain: seq<Proc>) {
    exists i: nat, j: nat :: OnTheWay(queue, depths, chain, i, j)
  }

  /** No line of descent to a match has been lost. */
  ghost predicate AllPending(table: seq<Proc>, root: int, path: string, queue: seq<Proc>, depths: seq<nat>) {
    forall chain: seq<Proc> :: Leads(table, root, path, chain) ==> Pending(queue, depths, chain)
  }

  function TurnDepths(table: seq<Proc>, queue: seq<Proc>, depths: seq<nat>): seq<nat>
    requires queue != [] && depths != []
  {
    depths[1..] + seq(|Children(table, queue[0].pid)|, _ => depths[0] + 1)
  }

  lemma TurnDepthsOrdered(table: seq<Proc>, root: int, queue: seq<Proc>, depths: seq<nat>)
    requires queue != [] && |depths| == |queue|
    requires forall i, j :: 0 <= i < j < |depths| ==> depths[i] <= depths[j] <= depths[i] + 1
    ensures var depths' := TurnDepths(table, queue, depths);
      && |depths'| == |Turn(table, queue)|
      && forall i, j :: 0 <= i < j < |depths'| ==> depths'[i] <= depths'[j] <= depths'[i] + 1
  {
    forall i | 0 <= i < |depths| ensures depths[0] <= depths[i] <= depths[0] + 1 {
    }
  }

  lemma ChildHasChain(table: seq<Proc>, root: int, p: Proc, depth: nat, kid: Proc)
    requires HasChain(table, root, p, depth) && kid in table && kid.ppid == p.pid
    ensures HasChain(table, root, kid, depth + 1)
  {
    var chain :| Chain(table, root, chain) && |chain| == depth && chain[|chain| - 1] == p;
    assert Chain(table, root, chain + [kid]);
  }

  lemma TurnQueued(table: seq<Proc>, root: int, queue: seq<Proc>, depths: seq<nat>)
    requires queue != [] && Queued(table, root, queue, depths)
    ensures Queued(table, root, Turn(table, queue), TurnDepths(table, queue, depths))
  {
    var p := queue[0];
    ChildrenAre(table, p.pid);
    TurnDepthsOrdered(table, root, queue, depths);
    assert HasChain(table, root, p, depths[0]);
    forall i | 0 <= i < |Turn(table, queue)|
      ensures HasChain(table, root, Turn(table, queue)[i], TurnDepths(table, queue, depths)[i])
    {
      TurnAt(table, queue, i);
      if i < |queue| - 1 {
        assert HasChain(table, root, queue[i + 1], depths[i + 1]);
      } else {
        var kid := Turn(table, queue)[i];
        assert kid in Children(table, p.pid);
        ChildHasChain(table, root, p, depths[0], kid);
      }
    }
  }

  /** Where the way along `chain` stands after one turn. */
  lemma TurnOnTheWay(table: seq<Proc>, root: int, path: string, queue: seq<Proc>, depths: seq<nat>,
                     chain: seq<Proc>, i: nat, j: nat) returns (i': nat, j': nat)
    requires queue != [] && |depths| == |queue| && !IsSslsniff(queue[0], path)
    requires Leads(table, root, path, chain) && OnTheWay(queue, depths, chain, i, j)
    ensures OnTheWay(Turn(table, queue), TurnDepths(table, queue, depths), chain, i', j')
    ensures if i > 0 then i' == i - 1 && j' == j else j' == j + 1
  {
    if i > 0 {
      i', j' := i - 1, j;
    } else {
      var kids := Children(table, queue[0].pid);
      ChildrenAre(table, queue[0].pid);
      assert j < |chain| - 1;
      assert chain[j + 1] in kids;
      var k :| 0 <= k < |kids| && kids[k] == chain[j + 1];
      i', j' := |queue| - 1 + k, j + 1;
    }
  }

  lemma TurnAllPending(table: seq<Proc>, root: int, path: string, queue: seq<Proc>, depths: seq<nat>)
    requires queue != [] && |depths| == |queue| && !IsSslsniff(queue[0], path)
    requires AllPending(table, root, path, queue, depths)
    ensures AllPending(table, root, path, Turn(table, queue), TurnDepths(table, queue, depths))
  {
    forall chain: seq<Proc> | Leads(table, root, path, chain)
      ensures Pending(Turn(table, queue), TurnDepths(table, queue, depths), chain)
    {
      var i: nat, j: nat :| OnTheWay(queue, depths, chain, i, j);
      var i', j' := TurnOnTheWay(table, root, path, queue, depths, chain, i, j);
    }
  }

  lemma StartOnTheWay(table: seq<Proc>, root: int, path: string, chain: seq<Proc>) returns (i: nat)
    requires Leads(table, root, path, chain)
    ensures var queue := Children(table, root);
      OnTheWay(queue, seq(|queue|, _ => 1), chain, i, 0)
  {
    ChildrenAre(table, root);
    assert chain[0] in Children(table, root);
    i :| i < |Children(table, root)| && Children(table, root)[i] == chain[0];
  }

  lemma StartQueued(table: seq<Proc>, root: int, path: string)
    ensures var queue := Children(table, root);
      var depths := seq(|queue|, _ => 1);
      Queued(table, root, queue, depths) && AllPending(table, root, path, queue, depths)
  {
    var queue := Children(table, root);
    var depths := seq(|queue|, _ => 1);
    ChildrenAre(table, root);
    forall i | 0 <= i < |queue| ensures HasChain(table, root, queue[i], depths[i]) {
      assert queue[i] in queue;
      assert Chain(table, root, [queue[i]]);
    }
    forall chain: seq<Proc> | Leads(table, root, path, chain) ensures Pending(queue, depths, chain) {
      var i := StartOnTheWay(table, root, path, chain);
    }
  }

  // ---------- Each process enters the queue at most once ----------

  ghost predicate Distinct(s: seq<Proc>) {
    forall i, j :: 0 <= i < j < |s| ==> s[i] != s[j]
  }

  /** The processes that have been in the queue, `done` those that have left it: none is
      queued twice, and each was queued by its only parent. */
  ghost predicate Fresh(table: seq<Proc>, root: int, queue: seq<Proc>, done: set<Proc>) {
    && Distinct(queue)
    && (forall p :: p in queue ==> p in table && p !in done && QueuedBy(root, done, p))
    && (forall p :: p in done ==> p in table && QueuedBy(root, done, p))
  }

  ghost predicate QueuedBy(root: int, done: set<Proc>, p: Proc) {
    p.ppid == root || exists parent :: parent in done && parent.pid == p.ppid
  }

  lemma {:induction false} ChildrenDistinct(table: seq<Proc>, pid: int)
    requires UniquePids(table)
    ensures Distinct(Children(table, pid))
  {
    if table != [] {
      var front, last := table[..|table| - 1], table[|table| - 1];
      ChildrenDistinct(front, pid);
      ChildrenAre(front, pid);
      assert last !in front;
    }
  }

  /** The children of the front process have never been queued. */
  lemma ChildrenAreNew(table: seq<Proc>, root: int, queue: seq<Proc>, depths: seq<nat>, done: set<Proc>, q: Proc)
    requires UniquePids(table) && !OwnDescendant(table, root)
    requires queue != [] && Queued(table, root, queue, depths) && Fresh(table, root, queue, done)
    requires q.ppid == queue[0].pid
    ensures q !in queue && q !in done
  {
    var p := queue[0];
    assert HasChain(table, root, p, depths[0]);
    assert p.pid != root;
    if QueuedBy(root, done, q) {
      var parent :| parent in done && parent.pid == p.pid;
      assert p in queue;
      SamePid(table, parent, p);
    }
  }

  lemma DistinctJoin(s: seq<Proc>, t: seq<Proc>)
    requires Distinct(s) && Distinct(t) && forall p :: p in t ==> p !in s
    ensures Distinct(s + t)
  {
    forall i, j | 0 <= i < j < |s + t| ensures (s + t)[i] != (s + t)[j] {
      if i < |s| <= j {
        assert t[j - |s|] in t && s[i] in s;
      }
    }
  }

  lemma TurnFresh(table: seq<Proc>, root: int, queue: seq<Proc>, depths: seq<nat>, done: set<Proc>)
    requires UniquePids(table) && !OwnDescendant(table, root)
    requires queue != [] && Queued(table, root, queue, depths) && Fresh(table, root, queue, done)
    ensures Fresh(table, root, Turn(table, queue), done + {queue[0]})
  {
    var p, rest := queue[0], queue[1..];
    var kids := Children(table, p.pid);
    var done' := done + {p};
    ChildrenAre(table, p.pid);
    ChildrenDistinct(table, p.pid);
    forall q | q in kids ensures q !in queue && q !in done {
      ChildrenAreNew(table, root, queue, depths, done, q);
    }
    assert p in queue && queue == [p] + rest;
    assert p !in rest;
    DistinctJoin(rest, kids);
    forall q | q in rest || q in kids || q in done'
      ensures q in table && QueuedBy(root, done', q)
    {
      if q in kids {
        assert p in done' && p.pid == q.ppid;
      } else {
        assert QueuedBy(root, done, q);
      }
    }
  }

  lemma SamePid(table: seq<Proc>, p: Proc, q: Proc)
    requires UniquePids(table) && p in table && q in table && p.pid == q.pid
    ensures p == q
  {
    var i :| 0 <= i < |table| && table[i] == p;
    var j :| 0 <= j < |table| && table[j] == q;
  }

  // ---------- The search ----------

  /** The queue after up to `n` more turns, and all the processes that have left it. */
  function Turns(table: seq<Proc>, queue: seq<Proc>, left: seq<Proc>, n: nat): (seq<Proc>, seq<Proc>)
    decreases n
  {
    if n == 0 || queue == [] then (queue, left)
    else Turns(table, Turn(table, queue), left + [queue[0]], n - 1)
  }

  /** The state of the search after up to `n` turns. */
  function SearchAfter(table: seq<Proc>, root: int, n: nat): (seq<Proc>, seq<Proc>) {
    Turns(table, Children(table, root), [], n)
  }

  lemma {:induction false} OneMoreTurn(table: seq<Proc>, queue: seq<Proc>, left: seq<Proc>, n: nat)
    requires Turns(table, queue, left, n).0 != []
    ensures var (q, l) := Turns(table, queue, left, n);
      Turns(table, queue, left, n + 1) == (Turn(table, q), l + [q[0]])
    decreases n
  {
    if n > 0 {
      OneMoreTurn(table, Turn(table, queue), left + [queue[0]], n - 1);
    } else {
      assert Turns(table, Turn(table, queue), left + [queue[0]], 0) == (Turn(table, queue), left + [queue[0]]);
    }
  }

  /** What stands at the front after `n` turns matches. */
  predicate MatchAfter(table: seq<Proc>, root: int, path: string, n: nat) {
    var queue := SearchAfter(table, root, n).0;
    queue != [] && IsSslsniff(queue[0], path)
  }

  ghost predicate HasMatch(table: seq<Proc>, root: int, path: string) {
    exists chain: seq<Proc> :: Leads(table, root, path, chain)
  }

  /** Some line of descent from the root comes back to a pid it has passed. */
  ghost predicate Cyclic(table: seq<Proc>, root: int) {
    exists chain: seq<Proc>, i: nat, j: nat :: Chain(table, root, chain) && Repeats(chain, i, j)
  }

  ghost predicate Repeats(chain: seq<Proc>, i: nat, j: nat) {
    i < j < |chain| && chain[i].pid == chain[j].pid
  }

  /** The condition under which the loop ends: there is something to find, or no cycle
      among the descendants of the root. */
  ghost predicate Ends(table: seq<Proc>, root: int, path: string) {
    HasMatch(table, root, path) || !Cyclic(table, root)
  }

  method GroupByParent(table: seq<Proc>) returns (children: map<int, seq<Proc>>)
    ensures forall pid :: Get(children, pid) == Children(table, pid)
  {
    children := map[];
    var i := 0;
    while i < |table|
      invariant 0 <= i <= |table|
      invariant forall pid :: Get(children, pid) == Children(table[..i], pid)
    {
      var proc := table[i];
      assert table[..i + 1][..i] == table[..i];
      if proc.ppid !in children {
        children := children[proc.ppid := []];
      }
      children := children[proc.ppid := children[proc.ppid] + [proc]];
      i := i + 1;
    }
    assert table[..|table|] == table;
  }

  /** `pid` is that of the first match to come to the front. */
  ghost predicate FirstInOrder(table: seq<Proc>, root: int, path: string, pid: int) {
    exists n: nat ::
      && MatchAfter(table, root, path, n) && SearchAfter(table, root, n).0[0].pid == pid
      && forall m: nat :: m < n ==> !MatchAfter(table, root, path, m)
  }

  /** `pid` is that of a matching descendant of least depth. */
  ghost predicate Shallowest(table: seq<Proc>, root: int, path: string, pid: int) {
    exists chain: seq<Proc> ::
      && Leads(table, root, path, chain) && chain[|chain| - 1].pid == pid
      && forall other: seq<Proc> :: Leads(table, root, path, other) ==> |chain| <= |other|
  }

  /** Sound, complete and shallowest first: None exactly if no descendant matches,
      otherwise the pid of a matching descendant at least depth, the first one that
      comes to the front, which is the first in the order of the table. */
  method FindDescendant(root: int, table: seq<Proc>, path: string) returns (found: Option<int>)
    requires Ends(table, root, path)
    ensures found.None? <==> !HasMatch(table, root, path)
    ensures found.Some? ==> Shallowest(table, root, path, found.value)
    ensures found.Some? ==> FirstInOrder(table, root, path, found.value)
    ensures found.None? <==> !exists way: seq<nat> :: MatchingWay(table, root, path, way)
    ensures found.Some? ==> FirstInTableOrder(table, root, path, found.value)
  {
    var children := GroupByParent(table);
    var queue := Get(children, root);
    ghost var track := StartTrack(table, root, path);
    ghost var ways := StartWays(table, root, path);
    while queue != []
      invariant Searching(table, root, path, queue, track)
      invariant WaysOf(table, root, queue, ways) && AllAhead(table, root, path, ways)
      decreases TurnsLeft(table, root, path, track), track.i
    {
      var proc := queue[0];
      if IsSslsniff(proc, path) {
        FoundAtFront(table, root, path, queue, track);
        FrontIsFirstInTableOrder(table, root, path, queue, ways);
        return Some(proc.pid);
      }
      track := NextTrack(table, root, path, queue, track);
      ways := TurnWays(table, root, path, queue, ways);
      queue := queue[1..] + Get(children, proc.pid);
    }
    NothingPending(table, root, path, track);
    NothingAhead(table, root, path, ways);
    return None;
  }

  /** What the proof follows: the turns so far with the processes that have left, the depths
      of those in the queue and, if there is a match, the place in the queue of the `j`-th
      process on a line of descent to it. */
  datatype Track = Track(n: nat, left: seq<Proc>, depths: seq<nat>, chain: seq<Proc>, i: nat, j: nat)

  ghost predicate Searching(table: seq<Proc>, root: int, path: string, queue: seq<Proc>, t: Track) {
    && Queued(table, root, queue, t.depths) && AllPending(table, root, path, queue, t.depths)
    && NoMatchBefore(table, root, path, queue, t)
    && (HasMatch(table, root, path) ==>
          Leads(table, root, path, t.chain) && OnTheWay(queue, t.depths, t.chain, t.i, t.j))
  }

  ghost predicate NoMatchBefore(table: seq<Proc>, root: int, path: string, queue: seq<Proc>, t: Track) {
    && SearchAfter(table, root, t.n) == (queue, t.left)
    && forall m: nat :: m < t.n ==> !MatchAfter(table, root, path, m)
  }

  ghost function TurnsLeft(table: seq<Proc>, root: int, path: string, t: Track): int {
    if HasMatch(table, root, path) then |t.chain| - t.j
    else Work(|table|, |Processes(table)|, t.depths)
  }

  lemma StartTrack(table: seq<Proc>, root: int, path: string) returns (t: Track)
    ensures Searching(table, root, path, Children(table, root), t)
  {
    StartQueued(table, root, path);
    t := Track(0, [], seq(|Children(table, root)|, _ => 1), [], 0, 0);
    if HasMatch(table, root, path) {
      var chain: seq<Proc> :| Leads(table, root, path, chain);
      var i := StartOnTheWay(table, root, path, chain);
      t := t.(chain := chain, i := i);
    }
  }

  lemma NoMatchYet(table: seq<Proc>, root: int, path: string, queue: seq<Proc>, t: Track, t': Track)
    requires NoMatchBefore(table, root, path, queue, t) && queue != [] && !IsSslsniff(queue[0], path)
    requires t'.n == t.n + 1 && t'.left == t.left + [queue[0]]
    ensures NoMatchBefore(table, root, path, Turn(table, queue), t')
  {
    OneMoreTurn(table, Children(table, root), [], t.n);
    assert !MatchAfter(table, root, path, t.n);
  }

  lemma NextTrack(table: seq<Proc>, root: int, path: string, queue: seq<Proc>, t: Track) returns (t': Track)
    requires Ends(table, root, path) && Searching(table, root, path, queue, t)
    requires queue != [] && !IsSslsniff(queue[0], path)
    ensures Searching(table, root, path, Turn(table, queue), t')
    ensures TurnsLeft(table, root, path, t') < TurnsLeft(table, root, path, t)
            || (TurnsLeft(table, root, path, t') == TurnsLeft(table, root, path, t) && t'.i < t.i)
    ensures TurnsLeft(table, root, path, t) >= 0
  {
    t' := t.(n := t.n + 1, left := t.left + [queue[0]], depths := TurnDepths(table, queue, t.depths));
    TurnQueued(table, root, queue, t.depths);
    TurnAllPending(table, root, path, queue, t.depths);
    if HasMatch(table, root, path) {
      var i, j := TurnOnTheWay(table, root, path, queue, t.depths, t.chain, t.i, t.j);
      t' := t'.(i := i, j := j);
    } else {
      TurnWork(table, root, queue, t.depths);
    }
    NoMatchYet(table, root, path, queue, t, t');
  }

  lemma FoundAtFront(table: seq<Proc>, root: int, path: string, queue: seq<Proc>, t: Track)
    requires Searching(table, root, path, queue, t) && queue != [] && IsSslsniff(queue[0], path)
    ensures HasMatch(table, root, path)
    ensures Shallowest(table, root, path, queue[0].pid) && FirstInOrder(table, root, path, queue[0].pid)
  {
    FrontIsShallowest(table, root, path, queue, t.depths);
    assert MatchAfter(table, root, path, t.n);
  }

  lemma NothingPending(table: seq<Proc>, root: int, path: string, t: Track)
    requires Searching(table, root, path, [], t)
    ensures !HasMatch(table, root, path)
  {
  }

  lemma FrontIsShallowest(table: seq<Proc>, root: int, path: string, queue: seq<Proc>, depths: seq<nat>)
    requires queue != [] && Queued(table, root, queue, depths) && AllPending(table, root, path, queue, depths)
    requires IsSslsniff(queue[0], path)
    ensures HasMatch(table, root, path) && Shallowest(table, root, path, queue[0].pid)
  {
    assert HasChain(table, root, queue[0], depths[0]);
    var chain :| Chain(table, root, chain) && |chain| == depths[0] && chain[|chain| - 1] == queue[0];
    assert Leads(table, root, path, chain);
    forall other: seq<Proc> | Leads(table, root, path, other) ensures |chain| <= |other| {
      var i: nat, j: nat :| OnTheWay(queue, depths, other, i, j);
    }
  }

  // ---------- Without a cycle the work runs out ----------

  ghost function Processes(table: seq<Proc>): set<Proc> { set p | p in table }

  lemma {:induction false} DistinctFits(chain: seq<Proc>, s: set<Proc>)
    requires forall i :: 0 <= i < |chain| ==> chain[i] in s
    requires forall i: nat, j: nat :: !Repeats(chain, i, j)
    ensures |chain| <= |s|
  {
    if chain != [] {
      var front, last := chain[..|chain| - 1], chain[|chain| - 1];
      forall i: nat, j: nat ensures !Repeats(front, i, j) {
        assert !Repeats(chain, i, j);
      }
      forall i | 0 <= i < |front| ensures front[i] in s - {last} {
        assert !Repeats(chain, i, |chain| - 1);
      }
      DistinctFits(front, s - {last});
    }
  }

  lemma ChainsAreShort(table: seq<Proc>, root: int, p: Proc, depth: nat)
    requires !Cyclic(table, root) && HasChain(table, root, p, depth)
    ensures depth <= |Processes(table)|
  {
    var chain :| Chain(table, root, chain) && |chain| == depth && chain[|chain| - 1] == p;
    forall i: nat, j: nat ensures !Repeats(chain, i, j) {
    }
    DistinctFits(chain, Processes(table));
  }

  /** At most how many turns a process can cause that has `levels` levels below it. */
  function Weight(width: nat, levels: int): nat
    decreases levels
  {
    if levels <= 0 then 1 else 1 + Times(width, Weight(width, levels - 1))
  }

  /** At most how many turns are left. */
  function Work(width: nat, most: int, depths: seq<nat>): nat {
    if depths == [] then 0
    else Work(width, most, depths[..|depths| - 1]) + Weight(width, most - depths[|depths| - 1])
  }

  lemma {:induction false} WorkJoin(width: nat, most: int, a: seq<nat>, b: seq<nat>)
    ensures Work(width, most, a + b) == Work(width, most, a) + Work(width, most, b)
  {
    if b == [] {
      assert a + b == a;
    } else {
      assert (a + b)[..|a + b| - 1] == a + b[..|b| - 1];
      WorkJoin(width, most, a, b[..|b| - 1]);
    }
  }

  lemma {:induction false} WorkOfLevel(width: nat, most: int, depth: nat, n: nat)
    ensures Work(width, most, seq(n, _ => depth)) == Times(n, Weight(width, most - depth))
  {
    var level: seq<nat> := seq(n, _ => depth);
    if n > 0 {
      assert level[..n - 1] == seq(n - 1, _ => depth);
      WorkOfLevel(width, most, depth, n - 1);
    }
  }

  lemma {:induction false} FewChildren(table: seq<Proc>, pid: int)
    ensures |Children(table, pid)| <= |table|
  {
    if table != [] {
      FewChildren(table[..|table| - 1], pid);
    }
  }

  lemma WorkOfFront(width: nat, most: int, depths: seq<nat>)
    requires depths != []
    ensures Work(width, most, depths) == Weight(width, most - depths[0]) + Work(width, most, depths[1..])
  {
    var front := [depths[0]];
    assert depths == front + depths[1..];
    WorkJoin(width, most, front, depths[1..]);
    assert front[..0] == [];
  }

  lemma TurnWork(table: seq<Proc>, root: int, queue: seq<Proc>, depths: seq<nat>)
    requires !Cyclic(table, root) && queue != [] && Queued(table, root, queue, depths)
    ensures var most := |Processes(table)|;
      Work(|table|, most, TurnDepths(table, queue, depths)) < Work(|table|, most, depths)
  {
    assert HasChain(table, root, queue[0], depths[0]);
    KidsCostLess(table, root, queue[0], depths[0]);
    LevelAdded(|table|, |Processes(table)|, depths, |Children(table, queue[0].pid)|);
  }

  lemma LevelAdded(width: nat, most: int, depths: seq<nat>, n: nat)
    requires depths != [] && Times(n, Weight(width, most - (depths[0] + 1))) < Weight(width, most - depths[0])
    ensures Work(width, most, depths[1..] + seq(n, _ => depths[0] + 1)) < Work(width, most, depths)
  {
    WorkOfFront(width, most, depths);
    WorkJoin(width, most, depths[1..], seq(n, _ => depths[0] + 1));
    WorkOfLevel(width, most, depths[0] + 1, n);
  }

  lemma KidsCostLess(table: seq<Proc>, root: int, p: Proc, depth: nat)
    requires !Cyclic(table, root) && HasChain(table, root, p, depth)
    ensures var most := |Processes(table)|;
      Times(|Children(table, p.pid)|, Weight(|table|, most - (depth + 1))) < Weight(|table|, most - depth)
  {
    var kids := Children(table, p.pid);
    if kids == [] {
      return;
    }
    ChildrenAre(table, p.pid);
    assert kids[0] in kids;
    ChildHasChain(table, root, p, depth, kids[0]);
    ChainsAreShort(table, root, kids[0], depth + 1);
    FewChildren(table, p.pid);
    TimesMonotone(|kids|, |table|, Weight(|table|, |Processes(table)| - (depth + 1)));
  }

  // ---------- The condition is exact ----------

  /** Some process of the way to the repeated pid is in the queue after every turn. */
  lemma {:induction false} OnCycle(table: seq<Proc>, root: int, cycle: seq<Proc>, a: nat, b: nat,
                                   queue: seq<Proc>, left: seq<Proc>, i: nat, k: nat, n: nat)
    requires Chain(table, root, cycle) && Repeats(cycle, a, b)
    requires i < |queue| && k <= b && queue[i] == cycle[k]
    ensures Turns(table, queue, left, n).0 != []
    decreases n
  {
    if n > 0 {
      var i', k' := i - 1, k;
      if i == 0 {
        k' := if k < b then k + 1 else a + 1;
        var kids := Children(table, queue[0].pid);
        ChildrenAre(table, queue[0].pid);
        assert cycle[k'] in kids;
        var m :| 0 <= m < |kids| && kids[m] == cycle[k'];
        i' := |queue| - 1 + m;
      }
      TurnAt(table, queue, i');
      OnCycle(table, root, cycle, a, b, Turn(table, queue), left + [queue[0]], i', k', n - 1);
    }
  }

  lemma {:induction false} StaysQueued(table: seq<Proc>, root: int, queue: seq<Proc>, left: seq<Proc>, depths: seq<nat>,
                                       n: nat) returns (depths': seq<nat>)
    requires Queued(table, root, queue, depths)
    ensures Queued(table, root, Turns(table, queue, left, n).0, depths')
    decreases n
  {
    depths' := depths;
    if n > 0 && queue != [] {
      TurnQueued(table, root, queue, depths);
      depths' := StaysQueued(table, root, Turn(table, queue), left + [queue[0]], TurnDepths(table, queue, depths), n - 1);
    }
  }

  /** The condition is exact: if a line of descent comes back to one of its pids and nothing
      matches, the queue never runs empty and its front never matches. */
  lemma CycleNeverEnds(table: seq<Proc>, root: int, path: string, n: nat)
    requires !Ends(table, root, path)
    ensures var queue := SearchAfter(table, root, n).0;
      queue != [] && !IsSslsniff(queue[0], path)
  {
    var cycle: seq<Proc>, a: nat, b: nat :| Chain(table, root, cycle) && Repeats(cycle, a, b);
    var start := Children(table, root);
    ChildrenAre(table, root);
    assert cycle[0] in start;
    var i :| 0 <= i < |start| && start[i] == cycle[0];
    OnCycle(table, root, cycle, a, b, start, [], i, 0, n);
    StartQueued(table, root, path);
    var depths := StaysQueued(table, root, start, [], seq(|start|, _ => 1), n);
    var queue := SearchAfter(table, root, n).0;
    assert HasChain(table, root, queue[0], depths[0]);
    var chain :| Chain(table, root, chain) && |chain| == depths[0] && chain[|chain| - 1] == queue[0];
    if IsSslsniff(queue[0], path) {
      assert Leads(table, root, path, chain);
    }
  }

  // ---------- With unique pids ----------

  /** With unique pids the descendants of the root have a cycle exactly if the root is its
      own descendant; unrelated parent cycles do no harm. */
  lemma CyclicIffOwnDescendant(table: seq<Proc>, root: int)
    requires UniquePids(table)
    ensures Cyclic(table, root) <==> OwnDescendant(table, root)
  {
    if OwnDescendant(table, root) {
      var chain: seq<Proc> :| Chain(table, root, chain) && chain[|chain| - 1].pid == root;
      var twice := chain + chain;
      assert Chain(table, root, twice);
      assert Repeats(twice, |chain| - 1, 2 * |chain| - 1);
    }
    if Cyclic(table, root) {
      var chain: seq<Proc>, i: nat, j: nat :| Chain(table, root, chain) && Repeats(chain, i, j);
      BackToRoot(table, root, chain, i, j);
    }
  }

  /** Two equal pids have the same parents, up to the root. */
  lemma {:induction false} BackToRoot(table: seq<Proc>, root: int, chain: seq<Proc>, i: nat, j: nat)
    requires UniquePids(table) && Chain(table, root, chain) && Repeats(chain, i, j)
    ensures OwnDescendant(table, root)
    decreases i
  {
    SamePid(table, chain[i], chain[j]);
    if i == 0 {
      assert Chain(table, root, chain[..j]);
      assert chain[..j][j - 1].pid == root;
    } else {
      BackToRoot(table, root, chain, i - 1, j - 1);
    }
  }

  function SetOf(s: seq<Proc>): set<Proc> { set p | p in s }

  lemma StartFresh(table: seq<Proc>, root: int)
    requires UniquePids(table)
    ensures Fresh(table, root, Children(table, root), SetOf([]))
  {
    ChildrenAre(table, root);
    ChildrenDistinct(table, root);
  }

  lemma FrontLeaves(left: seq<Proc>, p: Proc)
    requires Distinct(left) && p !in SetOf(left)
    ensures Distinct(left + [p]) && SetOf(left + [p]) == SetOf(left) + {p}
  {
    DistinctJoin(left, [p]);
  }

  /** All that have been queued so far are different. */
  ghost predicate AllFresh(table: seq<Proc>, root: int, queue: seq<Proc>, left: seq<Proc>) {
    Distinct(left) && Fresh(table, root, queue, SetOf(left))
  }

  lemma TurnAllFresh(table: seq<Proc>, root: int, queue: seq<Proc>, depths: seq<nat>, left: seq<Proc>)
    requires UniquePids(table) && !OwnDescendant(table, root)
    requires queue != [] && Queued(table, root, queue, depths) && AllFresh(table, root, queue, left)
    ensures AllFresh(table, root, Turn(table, queue), left + [queue[0]])
  {
    assert queue[0] in queue;
    TurnFresh(table, root, queue, depths, SetOf(left));
    FrontLeaves(left, queue[0]);
  }

  /** What every turn keeps holds after any number of turns. */
  lemma {:induction false} TurnsKeep(table: seq<Proc>, keeps: (seq<Proc>, seq<Proc>) -> bool,
                                     queue: seq<Proc>, left: seq<Proc>, n: nat)
    requires keeps(queue, left)
    requires forall q, l :: q != [] && keeps(q, l) ==> keeps(Turn(table, q), l + [q[0]])
    ensures keeps(Turns(table, queue, left, n).0, Turns(table, queue, left, n).1)
    decreases n
  {
    if n > 0 && queue != [] {
      TurnsKeep(table, keeps, Turn(table, queue), left + [queue[0]], n - 1);
    }
  }

  ghost function FreshStates(table: seq<Proc>, root: int): (seq<Proc>, seq<Proc>) -> bool {
    (queue, left) => FreshState(table, root, queue, left)
  }

  ghost predicate FreshState(table: seq<Proc>, root: int, queue: seq<Proc>, left: seq<Proc>) {
    AllFresh(table, root, queue, left) && exists depths: seq<nat> :: Queued(table, root, queue, depths)
  }

  lemma NextFreshState(table: seq<Proc>, root: int, queue: seq<Proc>, left: seq<Proc>)
    requires UniquePids(table) && !OwnDescendant(table, root)
    requires queue != [] && FreshState(table, root, queue, left)
    ensures FreshState(table, root, Turn(table, queue), left + [queue[0]])
  {
    var depths: seq<nat> :| Queued(table, root, queue, depths);
    TurnAllFresh(table, root, queue, depths, left);
    TurnQueued(table, root, queue, depths);
  }

  lemma StaysFresh(table: seq<Proc>, root: int, n: nat)
    requires UniquePids(table) && !OwnDescendant(table, root)
    ensures FreshState(table, root, SearchAfter(table, root, n).0, SearchAfter(table, root, n).1)
  {
    var start, keeps := Children(table, root), FreshStates(table, root);
    StartQueued(table, root, "");
    StartFresh(table, root);
    assert keeps(start, []);
    forall q, l | q != [] && keeps(q, l) ensures keeps(Turn(table, q), l + [q[0]]) {
      NextFreshState(table, root, q, l);
    }
    TurnsKeep(table, keeps, start, [], n);
  }

  /** Each process enters the queue at most once: those that have left it and those in it
      are all different processes of the table, after any number of turns. */
  lemma QueuedAtMostOnce(table: seq<Proc>, root: int, n: nat)
    requires UniquePids(table) && !OwnDescendant(table, root)
    ensures var (queue, left) := SearchAfter(table, root, n);
      Distinct(left + queue) && |left + queue| <= |Processes(table)|
  {
    StaysFresh(table, root, n);
    var (queue, left) := SearchAfter(table, root, n);
    AllDistinct(table, root, queue, left);
  }

  lemma AllDistinct(table: seq<Proc>, root: int, queue: seq<Proc>, left: seq<Proc>)
    requires UniquePids(table) && AllFresh(table, root, queue, left)
    ensures Distinct(left + queue) && |left + queue| <= |Processes(table)|
  {
    DistinctJoin(left, queue);
    InTable(table, root, left + queue, left, queue);
    forall i: nat, j: nat ensures !Repeats(left + queue, i, j) {
      if Repeats(left + queue, i, j) {
        SamePid(table, (left + queue)[i], (left + queue)[j]);
        assert false;
      }
    }
    DistinctFits(left + queue, Processes(table));
  }

  lemma InTable(table: seq<Proc>, root: int, all: seq<Proc>, left: seq<Proc>, queue: seq<Proc>)
    requires all == left + queue && Fresh(table, root, queue, SetOf(left))
    ensures forall i :: 0 <= i < |all| ==> all[i] in table
  {
    forall i | 0 <= i < |all| ensures all[i] in table {
      if i < |left| {
        assert all[i] in left;
      } else {
        assert all[i] in queue;
      }
    }
  }
}
