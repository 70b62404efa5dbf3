/**
 The process table, and the order in which it is searched: the lines of descent from the
 root, as positions in the table, are visited the shorter before the longer and among
 equally long ones in the order of the table.
 */
module ProcessTable {
  import opened Text

  datatype Proc = Proc(pid: int, ppid: int, comm: string, args: string)

  predicate IsSslsniff(p: Proc, path: string) { p.comm == "sslsniff" || Contains(p.args, path) }

  /** The processes whose parent is `pid`, in table order. */
  function Children(table: seq<Proc>, pid: int): seq<Proc> {
    if table == [] then []
    else
      var front := Children(table[..|table| - 1], pid);
      if table[|table| - 1].ppid == pid then front + [table[|table| - 1]] else front
  }

  lemma {:induction false} ChildrenAre(table: seq<Proc>, pid: int)
    ensures forall p :: p in Children(table, pid) <==> p in table && p.ppid == pid
  {
    if table != [] {
      var front, last := table[..|table| - 1], table[|table| - 1];
      ChildrenAre(front, pid);
      assert table == front + [last];
    }
  }

  /** What the search looks for, written out. */
  lemma IsSslsniffIff(p: Proc, path: string)
    ensures IsSslsniff(p, path) <==>
      p.comm == "sslsniff" || exists before: string, after: string :: p.args == before + path + after
  {
    ContainsIff(p.args, path);
  }

  /** One turn of the loop, when the front process is not the one looked for. */
  function Turn(table: seq<Proc>, queue: seq<Proc>): seq<Proc>
    requires queue != []
  {
    queue[1..] + Children(table, queue[0].pid)
  }

  lemma TurnAt(table: seq<Proc>, queue: seq<Proc>, i: nat)
    requires queue != [] && i < |Turn(table, queue)|
    ensures Turn(table, queue)[i] ==
      if i < |queue| - 1 then queue[i + 1] else Children(table, queue[0].pid)[i - (|queue| - 1)]
  {
  }

  // ---------- Table order ----------

  /** The positions of the processes whose parent is `pid`. */
  function Positions(table: seq<Proc>, pid: int): seq<nat> {
    if table == [] then []
    else
      var front := Positions(table[..|table| - 1], pid);
      if table[|table| - 1].ppid == pid then front + [|table| - 1] else front
  }

  lemma {:induction false} PositionsAre(table: seq<Proc>, pid: int)
    ensures forall i: nat :: i in Positions(table, pid) <==> i < |table| && table[i].ppid == pid
    ensures forall k, l :: 0 <= k < l < |Positions(table, pid)| ==> Positions(table, pid)[k] < Positions(table, pid)[l]
  {
    if table != [] {
      var front, pos := table[..|table| - 1], Positions(table[..|table| - 1], pid);
      PositionsAre(front, pid);
      forall k | 0 <= k < |pos| ensures pos[k] < |table| - 1 {
        assert pos[k] in pos;
      }
    }
  }

  lemma {:induction false} ChildAt(table: seq<Proc>, pid: int)
    ensures |Children(table, pid)| == |Positions(table, pid)|
    ensures forall k :: 0 <= k < |Positions(table, pid)| ==>
      Positions(table, pid)[k] < |table| && Children(table, pid)[k] == table[Positions(table, pid)[k]]
  {
    if table != [] {
      ChildAt(table[..|table| - 1], pid);
    }
  }

  /** The children of a process are exactly the rows that name it as their parent, and stand
      in the order of the table. */
  lemma ChildrenInTableOrder(table: seq<Proc>, pid: int) returns (pos: seq<nat>)
    ensures |pos| == |Children(table, pid)|
    ensures forall k, l :: 0 <= k < l < |pos| ==> pos[k] < pos[l]
    ensures forall i: nat :: i in pos <==> i < |table| && table[i].ppid == pid
    ensures forall k :: 0 <= k < |pos| ==> pos[k] < |table| && Children(table, pid)[k] == table[pos[k]]
  {
    pos := Positions(table, pid);
    PositionsAre(table, pid);
    ChildAt(table, pid);
  }

  // ---------- Lines of descent by their positions ----------

  /** A line of descent from `root`, as positions in the table. */
  ghost predicate Way(table: seq<Proc>, root: int, way: seq<nat>) {
    && way != []
    && (forall i :: 0 <= i < |way| ==> way[i] < |table|)
    && table[way[0]].ppid == root
    && forall i :: 0 < i < |way| ==> table[way[i]].ppid == table[way[i - 1]].pid
  }

  ghost predicate WayTo(table: seq<Proc>, root: int, way: seq<nat>, p: Proc) {
    Way(table, root, way) && table[way[|way| - 1]] == p
  }

  ghost predicate MatchingWay(table: seq<Proc>, root: int, path: string, way: seq<nat>) {
    Way(table, root, way) && IsSslsniff(table[way[|way| - 1]], path)
  }

  /** At `k` is the first difference, and there `a` is earlier in the table. */
  ghost predicate EarlierAt(a: seq<nat>, b: seq<nat>, k: nat) {
    k < |a| && k < |b| && a[..k] == b[..k] && a[k] < b[k]
  }

  ghost predicate EarlierInTable(a: seq<nat>, b: seq<nat>) {
    |a| == |b| && exists k: nat :: EarlierAt(a, b, k)
  }

  /** The shorter first, and equally long ones in the order of the table. */
  ghost predicate Earlier(a: seq<nat>, b: seq<nat>) {
    |a| < |b| || EarlierInTable(a, b)
  }

  /** `pid` is that of the first match. */
  ghost predicate FirstInTableOrder(table: seq<Proc>, root: int, path: string, pid: int) {
    exists way: seq<nat> ::
      && MatchingWay(table, root, path, way) && table[way[|way| - 1]].pid == pid
      && forall other: seq<nat> :: MatchingWay(table, root, path, other) ==> other == way || Earlier(way, other)
  }

  lemma EarlierTransitive(a: seq<nat>, b: seq<nat>, c: seq<nat>)
    requires EarlierInTable(a, b) && EarlierInTable(b, c)
    ensures EarlierInTable(a, c)
  {
    var k: nat :| EarlierAt(a, b, k);
    var l: nat :| EarlierAt(b, c, l);
    var m := if k < l then k else l;
    assert a[..m] == a[..k][..m] == b[..k][..m] == b[..m] == b[..l][..m] == c[..l][..m] == c[..m];
    assert a[m] <= b[m] <= c[m] by {
      if m < k { assert a[m] == a[..k][m] == b[..k][m] == b[m]; }
      if m < l { assert b[m] == b[..l][m] == c[..l][m] == c[m]; }
    }
    assert EarlierAt(a, c, m);
  }

  lemma EarlierExtends(a: seq<nat>, b: seq<nat>, i: nat, j: nat)
    requires EarlierInTable(a, b) || (a == b && i < j)
    ensures EarlierInTable(a + [i], b + [j])
  {
    var a', b' := a + [i], b + [j];
    if a == b {
      assert a'[..|a|] == b'[..|a|];
      assert EarlierAt(a', b', |a|);
    } else {
      var k: nat :| EarlierAt(a, b, k);
      assert a'[..k] == a[..k] && b'[..k] == b[..k];
      assert EarlierAt(a', b', k);
    }
  }

  // ---------- The queue in table order ----------

  ghost predicate Front(way: seq<nat>, first: seq<nat>) {
    way != [] && (|way| == |first| + 1 ==> EarlierInTable(way[..|way| - 1], first))
  }

  ghost predicate Aligned(table: seq<Proc>, root: int, queue: seq<Proc>, ways: seq<seq<nat>>) {
    |ways| == |queue| && forall i :: 0 <= i < |ways| ==> WayTo(table, root, ways[i], queue[i])
  }

  ghost predicate InTurn(ways: seq<seq<nat>>) {
    forall i, j :: 0 <= i < j < |ways| ==> Earlier(ways[i], ways[j])
  }

  ghost predicate Fronts(ways: seq<seq<nat>>) {
    forall i :: 0 <= i < |ways| ==> |ways[0]| <= |ways[i]| <= |ways[0]| + 1 && Front(ways[i], ways[0])
  }

  /** `ways` leads to the queued processes, in order; those that are one longer than the
      first continue ways that were before it. */
  ghost predicate WaysOf(table: seq<Proc>, root: int, queue: seq<Proc>, ways: seq<seq<nat>>) {
    Aligned(table, root, queue, ways) && InTurn(ways) && Fronts(ways)
  }

  ghost predicate OnItsWay(ways: seq<seq<nat>>, way: seq<nat>, i: nat, n: nat) {
    i < |ways| && 0 < n <= |way| && ways[i] == way[..n]
  }

  /** Every matching way begins with one of the queue. */
  ghost predicate AllAhead(table: seq<Proc>, root: int, path: string, ways: seq<seq<nat>>) {
    forall way: seq<nat> :: MatchingWay(table, root, path, way) ==> exists i: nat, n: nat :: OnItsWay(ways, way, i, n)
  }

  /** The first way, continued to the children of its process. */
  function Continued(way: seq<nat>, pos: seq<nat>): seq<seq<nat>> {
    seq(|pos|, k requires 0 <= k < |pos| => way + [pos[k]])
  }

  lemma ContinuedWays(table: seq<Proc>, root: int, way: seq<nat>, p: Proc, pos: seq<nat>)
    requires WayTo(table, root, way, p)
    requires forall i: nat :: i in pos ==> i < |table| && table[i].ppid == p.pid
    ensures forall k :: 0 <= k < |pos| ==> pos[k] in pos && WayTo(table, root, Continued(way, pos)[k], table[pos[k]])
  {
    forall k | 0 <= k < |pos| ensures pos[k] in pos && WayTo(table, root, Continued(way, pos)[k], table[pos[k]]) {
      assert pos[k] in pos;
      assert Continued(way, pos)[k] == way + [pos[k]];
    }
  }

  /** How the ways of the queue follow each other after a turn. */
  lemma TurnEarlier(rest: seq<seq<nat>>, way: seq<nat>, pos: seq<nat>, i: nat, j: nat)
    requires forall k, l :: 0 <= k < l < |rest| ==> Earlier(rest[k], rest[l])
    requires forall k :: 0 <= k < |rest| ==> |way| <= |rest[k]| <= |way| + 1 && Front(rest[k], way)
    requires forall k, l :: 0 <= k < l < |pos| ==> pos[k] < pos[l]
    requires i < j < |rest| + |pos|
    ensures Earlier((rest + Continued(way, pos))[i], (rest + Continued(way, pos))[j])
  {
    if i < |rest| <= j {
      var w := rest[i];
      if |w| == |way| + 1 {
        EarlierExtends(w[..|w| - 1], way, w[|w| - 1], pos[j - |rest|]);
        assert w == w[..|w| - 1] + [w[|w| - 1]];
      }
    } else if |rest| <= i {
      EarlierExtends(way, way, pos[i - |rest|], pos[j - |rest|]);
    }
  }

  /** What holds relative to the first way holds relative to the next one. */
  lemma TurnFront(way: seq<nat>, first: seq<nat>, w: seq<nat>)
    requires way != [] && Earlier(way, first) && |way| <= |first| <= |way| + 1
    requires |w| <= |way| + 1 && (Front(w, way) || (w != [] && w[..|w| - 1] == way))
    ensures Front(w, first)
  {
    if |w| == |first| + 1 && w[..|w| - 1] != way {
      EarlierTransitive(w[..|w| - 1], way, first);
    }
  }

  lemma TurnAligned(table: seq<Proc>, root: int, queue: seq<Proc>, ways: seq<seq<nat>>, pos: seq<nat>)
    requires queue != [] && Aligned(table, root, queue, ways)
    requires |pos| == |Children(table, queue[0].pid)|
    requires forall i: nat :: i in pos ==> i < |table| && table[i].ppid == queue[0].pid
    requires forall k :: 0 <= k < |pos| ==> pos[k] < |table| && Children(table, queue[0].pid)[k] == table[pos[k]]
    ensures Aligned(table, root, Turn(table, queue), ways[1..] + Continued(ways[0], pos))
  {
    var queue', ways' := Turn(table, queue), ways[1..] + Continued(ways[0], pos);
    ContinuedWays(table, root, ways[0], queue[0], pos);
    forall i | 0 <= i < |ways'| ensures WayTo(table, root, ways'[i], queue'[i]) {
      TurnAt(table, queue, i);
      if i < |ways| - 1 {
        assert WayTo(table, root, ways[i + 1], queue[i + 1]);
      }
    }
  }

  lemma TurnInTurn(ways: seq<seq<nat>>, pos: seq<nat>)
    requires ways != [] && InTurn(ways) && Fronts(ways)
    requires forall k, l :: 0 <= k < l < |pos| ==> pos[k] < pos[l]
    ensures InTurn(ways[1..] + Continued(ways[0], pos))
  {
    var rest, ways' := ways[1..], ways[1..] + Continued(ways[0], pos);
    forall i, j | 0 <= i < j < |ways'| ensures Earlier(ways'[i], ways'[j]) {
      TurnEarlier(rest, ways[0], pos, i, j);
    }
  }

  lemma TurnFronts(ways: seq<seq<nat>>, pos: seq<nat>)
    requires ways != [] && ways[0] != [] && InTurn(ways) && Fronts(ways)
    ensures Fronts(ways[1..] + Continued(ways[0], pos))
  {
    var ways' := ways[1..] + Continued(ways[0], pos);
    forall i | 0 <= i < |ways'| ensures |ways'[0]| <= |ways'[i]| <= |ways'[0]| + 1 && Front(ways'[i], ways'[0]) {
      if i >= |ways| - 1 {
        assert ways'[i] == ways[0] + [pos[i - (|ways| - 1)]];
        assert ways'[i][..|ways'[i]| - 1] == ways[0];
      }
      if |ways| > 1 {
        TurnFront(ways[0], ways[1], ways'[i]);
      }
    }
  }

  /** A matching way that is not at its end goes on to a child. */
  lemma TurnAhead(table: seq<Proc>, root: int, path: string, queue: seq<Proc>, ways: seq<seq<nat>>, pos: seq<nat>)
    requires queue != [] && WaysOf(table, root, queue, ways) && !IsSslsniff(queue[0], path)
    requires AllAhead(table, root, path, ways)
    requires forall i: nat :: i in pos <==> i < |table| && table[i].ppid == queue[0].pid
    ensures AllAhead(table, root, path, ways[1..] + Continued(ways[0], pos))
  {
    var ways' := ways[1..] + Continued(ways[0], pos);
    forall way: seq<nat> | MatchingWay(table, root, path, way) ensures exists i: nat, n: nat :: OnItsWay(ways', way, i, n) {
      var i: nat, n: nat :| OnItsWay(ways, way, i, n);
      if i > 0 {
        assert OnItsWay(ways', way, i - 1, n);
      } else {
        assert WayTo(table, root, ways[0], queue[0]);
        assert ways[0][n - 1] == way[n - 1];
        assert n < |way| && way[n] in pos;
        var k :| 0 <= k < |pos| && pos[k] == way[n];
        assert way[..n + 1] == way[..n] + [way[n]];
        assert OnItsWay(ways', way, |ways| - 1 + k, n + 1);
      }
    }
  }

  lemma TurnWays(table: seq<Proc>, root: int, path: string, queue: seq<Proc>, ways: seq<seq<nat>>)
    returns (ways': seq<seq<nat>>)
    requires queue != [] && WaysOf(table, root, queue, ways) && !IsSslsniff(queue[0], path)
    requires AllAhead(table, root, path, ways)
    ensures WaysOf(table, root, Turn(table, queue), ways') && AllAhead(table, root, path, ways')
  {
    var pos := ChildrenInTableOrder(table, queue[0].pid);
    ways' := ways[1..] + Continued(ways[0], pos);
    assert WayTo(table, root, ways[0], queue[0]);
    TurnAligned(table, root, queue, ways, pos);
    TurnInTurn(ways, pos);
    TurnFronts(ways, pos);
    TurnAhead(table, root, path, queue, ways, pos);
  }

  lemma Singles(pos: seq<nat>) returns (ways: seq<seq<nat>>)
    requires forall k, l :: 0 <= k < l < |pos| ==> pos[k] < pos[l]
    ensures |ways| == |pos| && (forall k :: 0 <= k < |pos| ==> ways[k] == [pos[k]])
    ensures InTurn(ways) && Fronts(ways)
  {
    ways := seq(|pos|, k requires 0 <= k < |pos| => [pos[k]]);
    forall k, l | 0 <= k < l < |ways| ensures Earlier(ways[k], ways[l]) {
      EarlierExtends([], [], pos[k], pos[l]);
      assert ways[k] == [] + [pos[k]] && ways[l] == [] + [pos[l]];
    }
  }

  lemma StartAhead(table: seq<Proc>, root: int, path: string, pos: seq<nat>, ways: seq<seq<nat>>)
    requires forall i: nat :: i in pos <==> i < |table| && table[i].ppid == root
    requires |ways| == |pos| && forall k :: 0 <= k < |pos| ==> ways[k] == [pos[k]]
    ensures AllAhead(table, root, path, ways)
  {
    forall way: seq<nat> | MatchingWay(table, root, path, way) ensures exists i: nat, n: nat :: OnItsWay(ways, way, i, n) {
      assert way[0] in pos;
      var k :| 0 <= k < |pos| && pos[k] == way[0];
      assert OnItsWay(ways, way, k, 1);
    }
  }

  lemma StartWays(table: seq<Proc>, root: int, path: string) returns (ways: seq<seq<nat>>)
    ensures WaysOf(table, root, Children(table, root), ways) && AllAhead(table, root, path, ways)
  {
    var pos := ChildrenInTableOrder(table, root);
    ways := Singles(pos);
    StartAhead(table, root, path, pos, ways);
    forall k | 0 <= k < |pos| ensures WayTo(table, root, ways[k], Children(table, root)[k]) {
      assert pos[k] in pos;
    }
  }

  /** A match at the front is the first of all. */
  lemma FrontIsFirstInTableOrder(table: seq<Proc>, root: int, path: string, queue: seq<Proc>, ways: seq<seq<nat>>)
    requires queue != [] && WaysOf(table, root, queue, ways) && IsSslsniff(queue[0], path)
    requires AllAhead(table, root, path, ways)
    ensures exists way: seq<nat> :: MatchingWay(table, root, path, way)
    ensures FirstInTableOrder(table, root, path, queue[0].pid)
  {
    var way := ways[0];
    assert WayTo(table, root, way, queue[0]);
    assert MatchingWay(table, root, path, way);
    forall other: seq<nat> | MatchingWay(table, root, path, other) ensures other == way || Earlier(way, other) {
      var i: nat, n: nat :| OnItsWay(ways, other, i, n);
      if n == |other| {
        assert other[..n] == other;
      }
      assert i > 0 ==> Earlier(way, ways[i]);
    }
  }

  lemma NothingAhead(table: seq<Proc>, root: int, path: string, ways: seq<seq<nat>>)
    requires ways == [] && AllAhead(table, root, path, ways)
    ensures !exists way: seq<nat> :: MatchingWay(table, root, path, way)
  {
  }
}
