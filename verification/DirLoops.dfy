/**
 Listing loops: a thread calls getdents64 on one descriptor until it is told 0.
 The directories do not change, the kernel hands out a whole listing at once, there is
 at most one loop at a time on a path, and each starts on a descriptor that stands at the
 start of its directory.
 */
module DirLoops {
  import opened FsCache

  /** Thread `id` lists through descriptor `fd`.  `got` is what it has received in
      `answers` calls, `atEnd` whether the kernel's position is behind the last entry. */
  datatype Loop = Loop(id: U64, fd: CInt, got: seq<Byte>, answers: nat, atEnd: bool)

  /** A getdents64 call that went on into the kernel. */
  datatype InKernel = InKernel(path: string, dirp: U64)

  /** A loop that was told 0, with all it had received. */
  datatype Finished = Finished(id: U64, path: string, got: seq<Byte>, answers: nat)

  /** `atEnd` holds the descriptors that a call into the kernel has left at the end of
      their directory. */
  datatype State = State(m: Maps, loops: map<string, Loop>, kernel: map<U64, InKernel>, finished: seq<Finished>,
                         atEnd: set<(U32, CInt)>)

  datatype Event =
    | Start(id: U64, fd: CInt)
    | Enter(path: string, dirp: U64, count: nat)
    | Exit(id: U64, readUser: U64 -> DentsArray)
    | Rewind(pid: U32, fd: CInt)  // lseek to the start, or another open that returns the number
    | Descriptors(dirFd: map<U64, string>)  // whatever open and close handlers did meanwhile

  /** The directory behind each path; every listing fits the cached array. */
  ghost predicate Fits(content: string -> seq<Byte>) {
    forall path: string :: |content(path)| <= DENTS_BUF_SIZE
  }

  predicate Tracked(d: map<U64, string>, id: U64, fd: CInt, path: string) {
    PfdKey(PidOf(id), fd) in d && d[PfdKey(PidOf(id), fd)] == path
  }

  /** What the kernel returns: the whole listing at the start of the directory, then 0. */
  function KernelAnswer(content: string -> seq<Byte>, loop: Loop, path: string): seq<Byte> {
    if loop.atEnd then [] else content(path)
  }

  /** The descriptor is fresh or rewound. */
  predicate Rewound(s: State, id: U64, fd: CInt) { (PidOf(id), fd) !in s.atEnd }

  ghost predicate Legal(content: string -> seq<Byte>, s: State, e: Event) {
    match e
    case Start(id, fd) =>
      && id != 0 && Rewound(s, id, fd)
      && PfdKey(PidOf(id), fd) in s.m.dirFd
      && s.m.dirFd[PfdKey(PidOf(id), fd)] !in s.loops
    case Enter(path, _, count) =>
      && path in s.loops
      && s.loops[path].id !in s.kernel
      && |content(path)| <= count
    case Exit(id, readUser) =>
      && id in s.kernel
      && s.kernel[id].path in s.loops
      // the kernel has put its answer at the start of the caller's buffer
      && var answer := KernelAnswer(content, s.loops[s.kernel[id].path], s.kernel[id].path);
      && |answer| <= DENTS_BUF_SIZE
      && readUser(s.kernel[id].dirp)[..|answer|] == answer
    case Rewind(pid, fd) =>
      forall path :: path in s.loops ==> (PidOf(s.loops[path].id), s.loops[path].fd) != (pid, fd)
    case Descriptors(d) =>
      forall path :: path in s.loops ==> Tracked(d, s.loops[path].id, s.loops[path].fd, path)
  }

  /** The loop on `path` receives one answer; an empty one ends it. */
  function Receive(s: State, path: string, bytes: seq<Byte>): State
    requires path in s.loops
  {
    var loop := s.loops[path];
    if bytes == []
    then s.(loops := s.loops - {path},
            finished := s.finished + [Finished(loop.id, path, loop.got, loop.answers + 1)])
    else s.(loops := s.loops[path := loop.(got := loop.got + bytes, answers := loop.answers + 1)])
  }

  /** The bytes a caller finds in its buffer after an overridden call. */
  function Delivered(ret: int, written: seq<Byte>): seq<Byte> {
    if 0 <= ret <= |written| then written[..ret] else written
  }

  function Apply(content: string -> seq<Byte>, s: State, e: Event): State
    requires Legal(content, s, e)
  {
    match e
    case Start(id, fd) =>
      s.(loops := s.loops[s.m.dirFd[PfdKey(PidOf(id), fd)] := Loop(id, fd, [], 0, false)])
    case Enter(path, dirp, count) =>
      var loop := s.loops[path];
      var (m, reply) := s.m.EnterGetdents(loop.id, loop.fd, dirp, count);
      (match reply
       case Continue => s.(m := m, kernel := s.kernel[loop.id := InKernel(path, dirp)])
       case Override(ret, written) => Receive(s.(m := m), path, Delivered(ret, written)))
    case Exit(id, readUser) =>
      var path := s.kernel[id].path;
      var answer := KernelAnswer(content, s.loops[path], path);
      Receive(s.(m := s.m.ExitGetdents(id, |answer|, readUser),
                 kernel := s.kernel - {id},
                 atEnd := s.atEnd + {(PidOf(id), s.loops[path].fd)},
                 loops := s.loops[path := s.loops[path].(atEnd := true)]),
              path, answer)
    case Rewind(pid, fd) => s.(atEnd := s.atEnd - {(pid, fd)})
    case Descriptors(d) => s.(m := s.m.(dirFd := d))
  }

  ghost predicate Run(content: string -> seq<Byte>, s: State, es: seq<Event>)
    decreases es
  {
    es == [] || (Legal(content, s, es[0]) && Run(content, Apply(content, s, es[0]), es[1..]))
  }

  ghost function After(content: string -> seq<Byte>, s: State, es: seq<Event>): State
    requires Run(content, s, es)
    decreases es
  {
    if es == [] then s else After(content, Apply(content, s, es[0]), es[1..])
  }

  ghost predicate Initial(s: State) {
    s.m.cache == map[] && s.loops == map[] && s.kernel == map[] && s.finished == [] && s.atEnd == {}
  }

  // ---------- The invariant ----------

  /** The thread's calls can no longer fill the entry: a map it needs is full. */
  predicate CannotFill(m: Maps, id: U64) {
    |m.cache| >= CAPACITY || (id !in m.dentsArgs && |m.dentsArgs| >= CAPACITY)
  }

  ghost predicate EntryInv(content: string -> seq<Byte>, m: Maps, path: string) {
    path in m.cache ==>
      && m.cache[path].nread == |content(path)| <= DENTS_BUF_SIZE
      && m.cache[path].buf[..|content(path)|] == content(path)
  }

  /** No thread holds the listing of `path`. */
  predicate Unread(content: string -> seq<Byte>, m: Maps, path: string) {
    path in m.cache && content(path) != [] ==> m.cache[path].lastPidTgid == 0
  }

  ghost predicate LoopInv(content: string -> seq<Byte>, m: Maps, path: string, loop: Loop) {
    && loop.id != 0
    && Tracked(m.dirFd, loop.id, loop.fd, path)
    && if loop.got == [] then
         && loop.answers == 0 && !loop.atEnd
         && Unread(content, m, path)
       else
         && loop.answers == 1 && loop.got == content(path)
         && if path in m.cache then m.cache[path].lastPidTgid == loop.id
            else loop.atEnd && CannotFill(m, loop.id)
  }

  ghost predicate PathInv(content: string -> seq<Byte>, s: State, path: string) {
    && EntryInv(content, s.m, path)
    && if path in s.loops then LoopInv(content, s.m, path, s.loops[path]) else Unread(content, s.m, path)
  }

  ghost predicate KernelInv(s: State, id: U64) {
    id in s.kernel ==>
      && s.kernel[id].path in s.loops
      && s.kernel[id].path !in s.m.cache
      && s.loops[s.kernel[id].path].id == id
      && (id !in s.m.dentsArgs ==> CannotFill(s.m, id))
      && (id in s.m.dentsArgs ==>
            && s.m.dentsArgs[id].fd == s.loops[s.kernel[id].path].fd
            && s.m.dentsArgs[id].dirp == s.kernel[id].dirp)
  }

  /** The plain process: each finished loop received the directory once, then 0. */
  ghost predicate Transparent(content: string -> seq<Byte>, f: Finished) {
    f.got == content(f.path) && f.answers == if content(f.path) == [] then 1 else 2
  }

  ghost predicate Inv(content: string -> seq<Byte>, s: State) {
    && (forall path :: PathInv(content, s, path))
    && (forall id: U64 :: KernelInv(s, id))
    && (forall i :: 0 <= i < |s.finished| ==> Transparent(content, s.finished[i]))
  }

  // ---------- The steps ----------

  /** The bytes an overridden call delivers to the loop on its path. */
  lemma EnterAnswer(content: string -> seq<Byte>, m: Maps, path: string, loop: Loop, dirp: U64, count: nat)
    requires Fits(content) && EntryInv(content, m, path) && LoopInv(content, m, path, loop)
    requires |content(path)| <= count && path in m.cache
    ensures var reply := m.EnterGetdents(loop.id, loop.fd, dirp, count).1;
      && reply.Override?
      && Delivered(reply.ret, reply.written) == if loop.got == [] then content(path) else []
  {
    assert |content(path)| <= DENTS_BUF_SIZE;
    var buf := m.cache[path];
    assert buf.buf[..Min(DENTS_BUF_SIZE, count)][..|content(path)|] == content(path);
  }

  lemma EnterStep(content: string -> seq<Byte>, s: State, e: Event)
    requires Fits(content) && Inv(content, s) && Legal(content, s, e) && e.Enter?
    ensures PathInv(content, Apply(content, s, e), e.path)
    ensures |Apply(content, s, e).finished| > |s.finished| ==>
      Transparent(content, Apply(content, s, e).finished[|s.finished|])
  {
    assert PathInv(content, s, e.path);
    if e.path in s.m.cache {
      EnterAnswer(content, s.m, e.path, s.loops[e.path], e.dirp, e.count);
    }
  }

  /** The entry after the exit handler of a call that the kernel has answered. */
  lemma ExitEntry(content: string -> seq<Byte>, s: State, e: Event)
    requires Fits(content) && Inv(content, s) && Legal(content, s, e) && e.Exit?
    ensures var path := s.kernel[e.id].path;
      var loop := s.loops[path];
      var m := s.m.ExitGetdents(e.id, |KernelAnswer(content, loop, path)|, e.readUser);
      && m == s.m.(cache := m.cache)
      && EntryInv(content, m, path)
      && (loop.got != [] ==> path !in m.cache)
      && (loop.got == [] ==> if path in m.cache then m.cache[path].lastPidTgid == e.id else CannotFill(m, e.id))
  {
    assert PathInv(content, s, s.kernel[e.id].path);
    assert KernelInv(s, e.id);
  }

  /** The loop on `path` receives what is due to it. */
  lemma ReceiveStep(content: string -> seq<Byte>, s: State, path: string, bytes: seq<Byte>)
    requires path in s.loops && EntryInv(content, s.m, path)
    requires var loop := s.loops[path];
      && loop.id != 0 && Tracked(s.m.dirFd, loop.id, loop.fd, path)
      && (if loop.got == []
          then loop.answers == 0 && bytes == content(path)
          else loop.answers == 1 && loop.got == content(path) && bytes == [])
      && (if bytes == [] then Unread(content, s.m, path)
          else if path in s.m.cache then s.m.cache[path].lastPidTgid == loop.id
          else loop.atEnd && CannotFill(s.m, loop.id))
    ensures PathInv(content, Receive(s, path, bytes), path)
    ensures |Receive(s, path, bytes).finished| > |s.finished| ==>
      Transparent(content, Receive(s, path, bytes).finished[|s.finished|])
  {
  }

  lemma ExitStep(content: string -> seq<Byte>, s: State, e: Event)
    requires Fits(content) && Inv(content, s) && Legal(content, s, e) && e.Exit?
    ensures PathInv(content, Apply(content, s, e), s.kernel[e.id].path)
    ensures |Apply(content, s, e).finished| > |s.finished| ==>
      Transparent(content, Apply(content, s, e).finished[|s.finished|])
  {
    var path := s.kernel[e.id].path;
    var loop := s.loops[path];
    var answer := KernelAnswer(content, loop, path);
    var m := s.m.ExitGetdents(e.id, |answer|, e.readUser);
    ExitEntry(content, s, e);
    assert PathInv(content, s, path) && KernelInv(s, e.id);
    ReceiveStep(content, s.(m := m, kernel := s.kernel - {e.id},
                            atEnd := s.atEnd + {(PidOf(e.id), loop.fd)}, loops := s.loops[path := loop.(atEnd := true)]),
                path, answer);
  }

  lemma EnterOtherPath(content: string -> seq<Byte>, s: State, e: Event, path: string)
    requires Inv(content, s) && Legal(content, s, e) && e.Enter? && path != e.path
    ensures PathInv(content, Apply(content, s, e), path)
  {
    assert PathInv(content, s, path);
    assert PathInv(content, s, e.path);
  }

  lemma ExitOtherPath(content: string -> seq<Byte>, s: State, e: Event, path: string)
    requires Inv(content, s) && Legal(content, s, e) && e.Exit? && path != s.kernel[e.id].path
    ensures PathInv(content, Apply(content, s, e), path)
  {
    assert PathInv(content, s, path);
    assert PathInv(content, s, s.kernel[e.id].path);
    assert KernelInv(s, e.id);
  }

  lemma EnterKernelStep(content: string -> seq<Byte>, s: State, e: Event, id: U64)
    requires Inv(content, s) && Legal(content, s, e) && e.Enter?
    ensures KernelInv(Apply(content, s, e), id)
  {
    assert KernelInv(s, id);
    assert PathInv(content, s, e.path);
  }

  lemma ExitKernelStep(content: string -> seq<Byte>, s: State, e: Event, id: U64)
    requires Inv(content, s) && Legal(content, s, e) && e.Exit?
    ensures KernelInv(Apply(content, s, e), id)
  {
    assert KernelInv(s, id);
    assert KernelInv(s, e.id);
    assert PathInv(content, s, s.kernel[e.id].path);
  }

  lemma PathStep(content: string -> seq<Byte>, s: State, e: Event, path: string)
    requires Fits(content) && Inv(content, s) && Legal(content, s, e)
    ensures PathInv(content, Apply(content, s, e), path)
  {
    match e
    case Enter(p, _, _) =>
      if p == path { EnterStep(content, s, e); } else { EnterOtherPath(content, s, e, path); }
    case Exit(id, _) =>
      if s.kernel[id].path == path { ExitStep(content, s, e); } else { ExitOtherPath(content, s, e, path); }
    case Start(_, _) => assert PathInv(content, s, path);
    case Rewind(_, _) => assert PathInv(content, s, path);
    case Descriptors(_) => assert PathInv(content, s, path);
  }

  lemma FinishedStep(content: string -> seq<Byte>, s: State, e: Event)
    requires Fits(content) && Inv(content, s) && Legal(content, s, e)
    ensures forall i :: 0 <= i < |Apply(content, s, e).finished| ==>
      Transparent(content, Apply(content, s, e).finished[i])
  {
    if e.Enter? { EnterStep(content, s, e); }
    if e.Exit? { ExitStep(content, s, e); }
    assert |Apply(content, s, e).finished| <= |s.finished| + 1;
  }

  lemma InvStep(content: string -> seq<Byte>, s: State, e: Event)
    requires Fits(content) && Inv(content, s) && Legal(content, s, e)
    ensures Inv(content, Apply(content, s, e))
  {
    FinishedStep(content, s, e);
    forall path ensures PathInv(content, Apply(content, s, e), path) {
      PathStep(content, s, e, path);
    }
    forall id: U64 ensures KernelInv(Apply(content, s, e), id) {
      match e
      case Enter(_, _, _) => EnterKernelStep(content, s, e, id);
      case Exit(_, _) => ExitKernelStep(content, s, e, id);
      case Start(_, _) => assert KernelInv(s, id);
      case Rewind(_, _) => assert KernelInv(s, id);
      case Descriptors(_) => assert KernelInv(s, id);
    }
  }

  lemma {:induction false} InvKept(content: string -> seq<Byte>, s: State, es: seq<Event>)
    requires Fits(content) && Inv(content, s) && Run(content, s, es)
    ensures Inv(content, After(content, s, es))
    decreases es
  {
    if es != [] {
      InvStep(content, s, es[0]);
      InvKept(content, Apply(content, s, es[0]), es[1..]);
    }
  }

  /** Cache transparency: every loop on a fresh or rewound descriptor, on a cold or a warm
      path, by any thread, ends having received exactly the directory's bytes, once, and
      then 0.  It holds for empty directories and after any of the maps has become full. */
  lemma CacheTransparency(content: string -> seq<Byte>, s: State, es: seq<Event>)
    requires Fits(content) && Initial(s) && Run(content, s, es)
    ensures var s' := After(content, s, es);
      forall i :: 0 <= i < |s'.finished| ==> Transparent(content, s'.finished[i])
  {
    InvKept(content, s, es);
  }

  /** A loop never needs a third answer, so every loop that goes on calling ends. */
  lemma LoopsEnd(content: string -> seq<Byte>, s: State, es: seq<Event>, path: string)
    requires Fits(content) && Initial(s) && Run(content, s, es)
    requires path in After(content, s, es).loops
    ensures var loop := After(content, s, es).loops[path];
      loop.answers <= 1 && (loop.answers == 1 ==> loop.got == content(path) != [])
  {
    InvKept(content, s, es);
    assert PathInv(content, After(content, s, es), path);
  }

  // ---------- Why the conditions are needed ----------

  /** Two threads call in turn, `a` first, `rounds` times each; their answers. */
  function Alternate(m: Maps, a: U64, fda: CInt, b: U64, fdb: CInt, count: nat, rounds: nat): seq<Reply>
    decreases rounds
  {
    if rounds == 0 then []
    else
      var (m1, r1) := m.EnterGetdents(a, fda, 0, count);
      var (m2, r2) := m1.EnterGetdents(b, fdb, 0, count);
      [r1, r2] + Alternate(m2, a, fda, b, fdb, count, rounds - 1)
  }

  /** Loops on one path that overlap may never end: two threads that call in turn are
      handed the whole listing each time, for ever. */
  lemma {:induction false} OverlappingLoopsStarve(
      m: Maps, path: string, a: U64, fda: CInt, b: U64, fdb: CInt, count: nat, rounds: nat)
    requires path in m.cache && m.cache[path].nread > 0 && m.cache[path].lastPidTgid != a && a != b
    requires Tracked(m.dirFd, a, fda, path) && Tracked(m.dirFd, b, fdb, path)
    ensures var replies := Alternate(m, a, fda, b, fdb, count, rounds);
      && |replies| == 2 * rounds
      && forall i :: 0 <= i < |replies| ==> replies[i].Override? && replies[i].ret == m.cache[path].nread
    decreases rounds
  {
    if rounds > 0 {
      var m1 := m.EnterGetdents(a, fda, 0, count).0;
      var m2 := m1.EnterGetdents(b, fdb, 0, count).0;
      OverlappingLoopsStarve(m2, path, a, fda, b, fdb, count, rounds - 1);
    }
  }

  /** A thread that stops after the listing and later lists the path again, through any
      descriptor, is told at once that the directory has ended. */
  lemma AbandonedLoopTruncatesNext(m: Maps, path: string, id: U64, fd: CInt, fd': CInt, dirp: U64, count: nat)
    requires path in m.cache && m.cache[path].lastPidTgid != id
    requires Tracked(m.dirFd, id, fd, path) && Tracked(m.dirFd, id, fd', path)
    ensures var first := m.EnterGetdents(id, fd, dirp, count);
      && first.1.Override? && first.1.ret == m.cache[path].nread
      && first.0.EnterGetdents(id, fd', dirp, count).1 == Override(0, [])
  {
  }

  /** On a descriptor at its end the kernel answers 0.  A warm path is listed once more. */
  lemma UnrewoundIsListedAgain(content: string -> seq<Byte>, m: Maps, path: string, loop: Loop, dirp: U64, count: nat)
    requires loop.atEnd && Tracked(m.dirFd, loop.id, loop.fd, path)
    requires path in m.cache && EntryInv(content, m, path) && m.cache[path].lastPidTgid != loop.id
    requires |content(path)| <= count
    ensures KernelAnswer(content, loop, path) == []
    ensures var reply := m.EnterGetdents(loop.id, loop.fd, dirp, count).1;
      reply.Override? && Delivered(reply.ret, reply.written) == content(path)
  {
    var buf := m.cache[path];
    assert buf.buf[..Min(DENTS_BUF_SIZE, count)][..|content(path)|] == content(path);
  }

  /** And on a cold path the kernel's 0 becomes the listing: from then on every thread is
      told at once that the directory has ended, whatever it contains. */
  lemma UnrewoundEmptiesThePath(m: Maps, path: string, id: U64, fd: CInt, dirp: U64, count: nat,
                                readUser: U64 -> DentsArray, other: U64, fd': CInt)
    requires Tracked(m.dirFd, id, fd, path) && Tracked(m.dirFd, other, fd', path)
    requires path !in m.cache && |m.cache| < CAPACITY && Accepts(m.dentsArgs, id)
    ensures var (entered, reply) := m.EnterGetdents(id, fd, dirp, count);
      var filled := entered.ExitGetdents(id, 0, readUser);
      var reply' := filled.EnterGetdents(other, fd', dirp, count).1;
      && reply.Continue?
      && path in filled.cache && filled.cache[path].nread == 0
      && reply'.Override? && reply'.ret == 0
  {
  }

  /** A cached listing is delivered whole exactly if it fits both the array and the caller. */
  lemma DeliveredWholeIffItFits(m: Maps, path: string, id: U64, fd: CInt, dirp: U64, count: nat)
    requires path in m.cache && m.cache[path].lastPidTgid != id && m.cache[path].nread >= 0
    requires Tracked(m.dirFd, id, fd, path)
    ensures var reply := m.EnterGetdents(id, fd, dirp, count).1;
      reply.Override? && (reply.ret <= |reply.written| <==> m.cache[path].nread <= Min(DENTS_BUF_SIZE, count))
  {
  }

  /** The path of a descriptor does not depend on the directory an openat is relative to,
      so that equal names in different directories share one cache entry. */
  lemma RelativeNamesShareAnEntry(
      absPath: string -> string, m: Maps, id: U64, uid: U32, dir: CInt, dir': CInt, name: string, fd: CInt, fd': CInt)
    requires !m.Denied(uid, ReadName(name)) && id in m.openArgs
    requires |m.dirFd| + 1 < CAPACITY && fd >= 0 && fd' >= 0 && fd != fd'
    ensures var m1 := m.EnterOpenat(id, uid, dir, name, 0).0.ExitOpen(absPath, id, fd);
      var m2 := m1.EnterOpenat(id, uid, dir', name, 0).0.ExitOpen(absPath, id, fd');
      && Tracked(m2.dirFd, id, fd, absPath(ReadName(name)))
      && Tracked(m2.dirFd, id, fd', absPath(ReadName(name)))
  {
    PfdKeyInjective(PidOf(id), fd, PidOf(id), fd');
  }
}
