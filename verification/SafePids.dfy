/**
 The set of processes that the cleanup must never kill: how it is built from the
 ancestors of the benchmark, and what cleanups do with it.
 */
module SafePids {
  import opened Options
  import opened Text

  /** A line of a pgrep listing: its pid, if it is a number, and the command line that ps
      then reports, if ps succeeds. */
  datatype Candidate = Candidate(pid: Option<int>, cmdline: Option<string>)

  // ---------- Ancestors ----------

  /** The `n`-th ancestor of `pid`; `parents` holds the answers of the parent queries, and
      a query that failed or found nothing has none.  Pid 0 is no process. */
  function Ancestor(parents: map<int, int>, pid: int, n: nat): Option<int> {
    if n == 0 then if pid == 0 then None else Some(pid)
    else match Ancestor(parents, pid, n - 1)
      case None => None
      case Some(p) => if p in parents && parents[p] != 0 then Some(parents[p]) else None
  }

  ghost predicate IsAncestor(parents: map<int, int>, pid: int, p: int) {
    exists n: nat :: Ancestor(parents, pid, n) == Some(p)
  }

  /** `safe` holds the parent of each of its members, except perhaps of `open`. */
  ghost predicate Closed(parents: map<int, int>, safe: set<int>, open: int) {
    forall p :: p in safe && p in parents ==> parents[p] == 0 || parents[p] == open || parents[p] in safe
  }

  lemma {:induction false} ClosedHoldsAncestors(parents: map<int, int>, safe: set<int>, pid: int, n: nat)
    requires Closed(parents, safe, 0) && (pid == 0 || pid in safe)
    ensures Ancestor(parents, pid, n).Some? ==> Ancestor(parents, pid, n).value in safe
  {
    if n > 0 {
      ClosedHoldsAncestors(parents, safe, pid, n - 1);
    }
  }

  // ---------- Cleanup ----------

  /** Whether the cleanup kills the candidate. */
  predicate Kills(safe: set<int>, script: string, c: Candidate) {
    c.pid.Some? && c.cmdline.Some? && c.pid.value !in safe
    && !(Contains(c.cmdline.value, script) && Contains(c.cmdline.value, "python"))
  }

  /** The pids killed by one cleanup, in order. */
  function Killed(safe: set<int>, script: string, listing: seq<Candidate>): seq<int> {
    if listing == [] then []
    else
      var front, last := Killed(safe, script, listing[..|listing| - 1]), listing[|listing| - 1];
      if Kills(safe, script, last) then front + [last.pid.value] else front
  }

  /** What makes a cleanup kill a listed process: its number and its command line are known, it
      is not in the set, and its command line does not name both the script and python. */
  ghost predicate Doomed(safe: set<int>, script: string, c: Candidate) {
    && c.pid.Some? && c.pid.value !in safe && c.cmdline.Some?
    && !((exists a: string, b: string :: c.cmdline.value == a + script + b)
         && (exists a: string, b: string :: c.cmdline.value == a + "python" + b))
  }

  lemma KillsIffDoomed(safe: set<int>, script: string, c: Candidate)
    ensures Kills(safe, script, c) <==> Doomed(safe, script, c)
  {
    if c.cmdline.Some? {
      ContainsIff(c.cmdline.value, script);
      ContainsIff(c.cmdline.value, "python");
    }
  }

  lemma {:induction false} KilledAre(safe: set<int>, script: string, listing: seq<Candidate>, p: int)
    ensures p in Killed(safe, script, listing) <==>
      exists c :: c in listing && c.pid == Some(p) && Doomed(safe, script, c)
  {
    if listing != [] {
      var front, last := listing[..|listing| - 1], listing[|listing| - 1];
      KilledAre(safe, script, front, p);
      KillsIffDoomed(safe, script, last);
      assert listing == front + [last];
    }
  }

  /** They are killed in the order of the listing, and as often as they are listed. */
  lemma {:induction false} KilledInOrder(safe: set<int>, script: string, a: seq<Candidate>, c: Candidate, b: seq<Candidate>)
    ensures Killed(safe, script, a + [c] + b) ==
      Killed(safe, script, a) + (if Doomed(safe, script, c) then [c.pid.value] else []) + Killed(safe, script, b)
  {
    KillsIffDoomed(safe, script, c);
    var all := a + [c] + b;
    if b == [] {
      assert all == a + [c] && all[..|all| - 1] == a;
    } else {
      var front, last := b[..|b| - 1], b[|b| - 1];
      assert all[..|all| - 1] == a + [c] + front && all[|all| - 1] == last;
      KilledInOrder(safe, script, a, c, front);
    }
  }

  datatype Event =
    | Launch(pid: int)
    | Cleanup(self: int, parent: Option<int>, listing: seq<Candidate>)

  function WithOption(safe: set<int>, p: Option<int>): set<int> {
    if p.Some? then safe + {p.value} else safe
  }

  function Apply(safe: set<int>, e: Event): set<int> {
    match e
    case Launch(pid) => safe + {pid}
    case Cleanup(self, parent, _) => WithOption(safe + {self}, parent)
  }

  function KilledBy(safe: set<int>, script: string, e: Event): seq<int> {
    match e
    case Launch(_) => []
    case Cleanup(_, _, listing) => Killed(Apply(safe, e), script, listing)
  }

  function After(safe: set<int>, es: seq<Event>): set<int> {
    if es == [] then safe else Apply(After(safe, es[..|es| - 1]), es[|es| - 1])
  }

  /** A cleanup kills exactly the doomed among the listed, where the process and its parent
      are safe as well. */
  lemma CleanupKillsExactly(safe: set<int>, script: string, self: int, parent: Option<int>, listing: seq<Candidate>, p: int)
    ensures p in KilledBy(safe, script, Cleanup(self, parent, listing)) <==>
      p !in safe && p != self && Some(p) != parent
      && exists c :: c in listing && c.pid == Some(p) && Doomed({}, script, c)
  {
    var safe' := Apply(safe, Cleanup(self, parent, listing));
    KilledAre(safe', script, listing, p);
    forall c: Candidate | c.pid == Some(p) ensures Doomed(safe', script, c) <==> p !in safe' && Doomed({}, script, c) {
    }
  }

  lemma {:induction false} SafeOnlyGrows(safe: set<int>, es: seq<Event>)
    ensures safe <= After(safe, es)
    ensures forall i :: 0 <= i < |es| && es[i].Launch? ==> es[i].pid in After(safe, es)
  {
    if es != [] {
      SafeOnlyGrows(safe, es[..|es| - 1]);
      forall i | 0 <= i < |es| && es[i].Launch? ensures es[i].pid in After(safe, es) {
        if i < |es| - 1 {
          assert es[i] == es[..|es| - 1][i];
        }
      }
    }
  }

  /** In any sequence of launches and cleanups that starts from a set holding the process
      and its ancestors (as InitSafePids leaves it), no cleanup kills one of them, nor a server launched before. */
  lemma CleanupSparesTheRunner(parents: map<int, int>, safe: set<int>, self: int, script: string,
                               es: seq<Event>, k: nat, p: int)
    requires forall a :: IsAncestor(parents, self, a) ==> a in safe
    requires k < |es| && p in KilledBy(After(safe, es[..k]), script, es[k])
    ensures !IsAncestor(parents, self, p)
    ensures forall i :: 0 <= i < k && es[i].Launch? ==> es[i].pid != p
  {
    var now := After(safe, es[..k]);
    SafeOnlyGrows(safe, es[..k]);
    KilledAre(Apply(now, es[k]), script, es[k].listing, p);
    assert p !in now;
    forall i | 0 <= i < k && es[i].Launch? ensures es[i].pid != p {
      assert es[..k][i] == es[i];
    }
  }

  // ---------- The script's state ----------

  class Protection {
    var safePids: set<int>
    var cleanupInProgress: bool

    constructor ()
      ensures safePids == {} && !cleanupInProgress
    {
      safePids, cleanupInProgress := {}, false;
    }

    /** The walk up the parents, which ends on every relation, cycles included. */
    method AddAncestors(self: int, parents: map<int, int>)
      modifies this`safePids
      ensures old(safePids) <= safePids
      ensures Closed(parents, old(safePids), 0) ==> forall p :: IsAncestor(parents, self, p) ==> p in safePids
      ensures forall p :: p in safePids ==> p in old(safePids) || IsAncestor(parents, self, p)
    {
      var current := self;
      ghost var steps: nat := 0;
      while current != 0 && current !in safePids
        invariant old(safePids) <= safePids
        invariant Closed(parents, old(safePids), 0) ==> Closed(parents, safePids, current)
        invariant self in safePids || self == current
        invariant current != 0 ==> Ancestor(parents, self, steps) == Some(current)
        invariant forall p :: p in safePids ==> p in old(safePids) || IsAncestor(parents, self, p)
        decreases if current in parents then |parents.Keys - safePids| + 1 else 0
      {
        safePids := safePids + {current};
        if current !in parents {
          break;
        }
        assert parents.Keys - (safePids - {current}) == parents.Keys - safePids + {current};
        current := parents[current];
        steps := steps + 1;
      }
      if Closed(parents, old(safePids), 0) {
        forall p | IsAncestor(parents, self, p) ensures p in safePids {
          var n: nat :| Ancestor(parents, self, n) == Some(p);
          ClosedHoldsAncestors(parents, safePids, self, n);
        }
      }
    }

    /** The pids that pgrep lists, as far as they are numbers. */
    method AddListed(pids: seq<Option<int>>)
      modifies this`safePids
      ensures old(safePids) <= safePids
      ensures forall p :: Some(p) in pids ==> p in safePids
      ensures forall p :: p in safePids ==> p in old(safePids) || Some(p) in pids
    {
      for i := 0 to |pids|
        invariant old(safePids) <= safePids
        invariant forall p :: Some(p) in pids[..i] ==> p in safePids
        invariant forall p :: p in safePids ==> p in old(safePids) || Some(p) in pids[..i]
      {
        if pids[i].Some? {
          safePids := safePids + {pids[i].value};
        }
        assert pids[..i + 1] == pids[..i] + [pids[i]];
      }
      assert pids[..|pids|] == pids;
    }

    /** `pgid` and `scriptPids` are further pids that the other commands have found. */
    method InitSafePids(self: int, parents: map<int, int>, pgid: Option<int>, scriptPids: seq<Option<int>>)
      modifies this`safePids
      ensures old(safePids) <= safePids
      ensures pgid.Some? ==> pgid.value in safePids
      ensures forall p :: Some(p) in scriptPids ==> p in safePids
      ensures Closed(parents, old(safePids), 0) ==> forall p :: IsAncestor(parents, self, p) ==> p in safePids
      ensures forall p :: p in safePids ==>
        p in old(safePids) || IsAncestor(parents, self, p) || pgid == Some(p) || Some(p) in scriptPids
    {
      AddAncestors(self, parents);
      if pgid.Some? {
        safePids := safePids + {pgid.value};
      }
      AddListed(scriptPids);
    }

    method LaunchServer(pid: int)
      modifies this`safePids
      ensures safePids == Apply(old(safePids), Launch(pid))
    {
      safePids := safePids + {pid};
    }

    /** `listings` are the outputs of the three pgrep commands.  A cleanup that is entered
        while another is in progress does nothing. */
    method CleanupProcesses(self: int, parent: Option<int>, script: string, listings: seq<seq<Candidate>>)
        returns (killed: seq<int>)
      modifies this
      ensures old(cleanupInProgress) ==> killed == [] && safePids == old(safePids) && cleanupInProgress
      ensures !old(cleanupInProgress) ==>
        var e := Cleanup(self, parent, Flatten(listings));
        && safePids == Apply(old(safePids), e)
        && killed == KilledBy(old(safePids), script, e)
        && !cleanupInProgress
    {
      killed := [];
      if cleanupInProgress {
        return;
      }
      cleanupInProgress := true;
      safePids := safePids + {self};
      if parent.Some? {
        safePids := safePids + {parent.value};
      }
      var done: seq<Candidate> := [];
      for i := 0 to |listings|
        invariant done == Flatten(listings[..i])
        invariant killed == Killed(safePids, script, done)
      {
        ghost var before := done;
        var pids := listings[i];
        for j := 0 to |pids|
          invariant done == before + pids[..j]
          invariant killed == Killed(safePids, script, done)
        {
          var c := pids[j];
          if c.pid.Some? && c.pid.value !in safePids {
            if c.cmdline.Some? && !(Contains(c.cmdline.value, script) && Contains(c.cmdline.value, "python")) {
              killed := killed + [c.pid.value];
            }
          }
          done := done + [c];
          assert done[..|done| - 1] == before + pids[..j];
        }
        assert listings[..i + 1][..i] == listings[..i];
      }
      assert listings[..|listings|] == listings;
      cleanupInProgress := false;
    }
  }

  function Flatten<T>(xss: seq<seq<T>>): seq<T> {
    if xss == [] then [] else Flatten(xss[..|xss| - 1]) + xss[|xss| - 1]
  }
}
