/**
 getdents64 by any number of threads over the listing cache, interleaved at the
 granularity of one handler.
 */
module DirListing {
  import opened FsCache

  /** A call that went on into the kernel. */
  datatype InKernel = InKernel(fd: CInt, dirp: U64, path: string)

  // ---------- What the cache answers, for arbitrary calls ----------

  /** One listing handed out for a path: thread `id` was told `ret` bytes, by the
      call whose exit filled the cache entry or by an overridden call. */
  datatype Answer = Answer(id: U64, ret: int)

  datatype State = State(m: Maps, kernel: map<U64, InKernel>, log: map<string, seq<Answer>>)

  datatype Event =
    | Enter(id: U64, fd: CInt, dirp: U64, count: nat)
    | Exit(id: U64, ret: int, readUser: U64 -> DentsArray)
    | Descriptors(dirFd: map<U64, string>)  // whatever open and close handlers did meanwhile

  predicate Holds(d: map<U64, string>, id: U64, call: InKernel) {
    PfdKey(PidOf(id), call.fd) in d && d[PfdKey(PidOf(id), call.fd)] == call.path
  }

  /** getdents64 is called on tracked descriptors, which stay as they are until the call
      returns; an overridden call has no exit event; thread ids are not 0. */
  predicate Legal(s: State, e: Event) {
    match e
    case Enter(id, fd, _, _) => id != 0 && id !in s.kernel && PfdKey(PidOf(id), fd) in s.m.dirFd
    case Exit(id, _, _) => id in s.kernel
    case Descriptors(d) => forall id :: id in s.kernel ==> Holds(d, id, s.kernel[id])
  }

  function Log(s: State, path: string): seq<Answer> {
    if path in s.log then s.log[path] else []
  }

  function Apply(s: State, e: Event): State
    requires Legal(s, e)
  {
    match e
    case Enter(id, fd, dirp, count) =>
      var path := s.m.dirFd[PfdKey(PidOf(id), fd)];
      var (m, reply) := s.m.EnterGetdents(id, fd, dirp, count);
      (match reply
       case Continue => State(m, s.kernel[id := InKernel(fd, dirp, path)], s.log)
       case Override(ret, _) => State(m, s.kernel, s.log[path := Log(s, path) + [Answer(id, ret)]]))
    case Exit(id, ret, readUser) =>
      var path := s.kernel[id].path;
      State(s.m.ExitGetdents(id, ret, readUser), s.kernel - {id},
            if s.m.Fills(id, ret, path) then s.log[path := Log(s, path) + [Answer(id, ret)]] else s.log)
    case Descriptors(d) => s.(m := s.m.(dirFd := d))
  }

  predicate Run(s: State, es: seq<Event>)
    decreases es
  {
    es == [] || (Legal(s, es[0]) && Run(Apply(s, es[0]), es[1..]))
  }

  function After(s: State, es: seq<Event>): State
    requires Run(s, es)
    decreases es
  {
    if es == [] then s else After(Apply(s, es[0]), es[1..])
  }

  predicate Initial(s: State) {
    s.m.cache == map[] && s.kernel == map[] && s.log == map[]
  }

  /** The first answer is the listing that filled the entry.  Every later one repeats it
      or is 0, and a 0 goes only to the thread that was the last to be handed the listing. */
  ghost predicate EndOnlyAfterListing(log: seq<Answer>) {
    forall i :: 0 <= i < |log| ==>
      && log[i].ret in {0, log[0].ret}
      && (log[i].ret == 0 && log[0].ret != 0 ==> i > 0 && log[i - 1] == Answer(log[i].id, log[0].ret))
  }

  /** last_pid_tgid is the last thread to be handed the listing, or 0 after an end. */
  ghost predicate EntryMatchesLog(buf: DentsBuffer, log: seq<Answer>) {
    && log != [] && buf.nread == log[0].ret
    && (buf.nread != 0 && buf.lastPidTgid == 0 ==> log[|log| - 1].ret == 0)
    && (buf.nread != 0 && buf.lastPidTgid != 0 ==> log[|log| - 1] == Answer(buf.lastPidTgid, buf.nread))
  }

  ghost predicate KernelCalls(s: State) {
    forall id :: id in s.kernel ==>
      && id != 0
      && Holds(s.m.dirFd, id, s.kernel[id])
      && (id in s.m.dentsArgs ==> s.m.dentsArgs[id].fd == s.kernel[id].fd)
  }

  ghost predicate PathInv(s: State, path: string) {
    && (path !in s.m.cache ==> Log(s, path) == [])
    && (path in s.m.cache ==> EntryMatchesLog(s.m.cache[path], Log(s, path)))
    && EndOnlyAfterListing(Log(s, path))
    && forall i :: 0 <= i < |Log(s, path)| ==> Log(s, path)[i].id != 0
  }

  ghost predicate Inv(s: State) {
    KernelCalls(s) && forall path :: PathInv(s, path)
  }

  lemma LogStep(buf: DentsBuffer, log: seq<Answer>, id: U64)
    requires id != 0 && EntryMatchesLog(buf, log) && EndOnlyAfterListing(log)
    ensures var ending := id == buf.lastPidTgid;
      var log' := log + [Answer(id, if ending then 0 else buf.nread)];
      EndOnlyAfterListing(log') && EntryMatchesLog(buf.(lastPidTgid := if ending then 0 else id), log')
  {
  }

  lemma EnterStep(s: State, e: Event, path: string)
    requires Inv(s) && Legal(s, e) && e.Enter?
    ensures PathInv(Apply(s, e), path)
  {
    assert PathInv(s, path);
    if path == s.m.dirFd[PfdKey(PidOf(e.id), e.fd)] && path in s.m.cache {
      LogStep(s.m.cache[path], Log(s, path), e.id);
    }
  }

  lemma ExitStep(s: State, e: Event, path: string)
    requires Inv(s) && Legal(s, e) && e.Exit?
    ensures PathInv(Apply(s, e), path)
  {
    assert PathInv(s, path);
    assert Holds(s.m.dirFd, e.id, s.kernel[e.id]);
  }

  lemma KernelCallsStep(s: State, e: Event)
    requires KernelCalls(s) && Legal(s, e)
    ensures KernelCalls(Apply(s, e))
  {
  }

  lemma InvStep(s: State, e: Event)
    requires Inv(s) && Legal(s, e)
    ensures Inv(Apply(s, e))
  {
    KernelCallsStep(s, e);
    forall path ensures PathInv(Apply(s, e), path) {
      match e
      case Enter(_, _, _, _) => EnterStep(s, e, path);
      case Exit(_, _, _) => ExitStep(s, e, path);
      case Descriptors(_) => assert PathInv(s, path);
    }
  }

  lemma {:induction false} InvKept(s: State, es: seq<Event>)
    requires Inv(s) && Run(s, es)
    ensures Inv(After(s, es))
    decreases es
  {
    if es != [] {
      InvStep(s, es[0]);
      InvKept(Apply(s, es[0]), es[1..]);
    }
  }

  /** End-of-directory safety: in every interleaving, with full maps or not, and unless the
      call that filled the entry returned 0, no thread is told the end of a directory whose
      own previous answer on that path was not the whole listing, or if anybody was handed
      the listing in between. */
  lemma EndOfDirectorySafety(s: State, es: seq<Event>, path: string)
    requires Initial(s) && Run(s, es)
    ensures EndOnlyAfterListing(Log(After(s, es), path))
  {
    InvKept(s, es);
    assert PathInv(After(s, es), path);
  }

  /** And conversely: unless the entry was filled by a call that returned 0, the next
      overridden call is told the end exactly if the caller was the last to be handed the
      listing. */
  lemma EndExactlyForLastReader(s: State, es: seq<Event>, id: U64, fd: CInt, dirp: U64, count: nat)
    requires Initial(s) && Run(s, es) && Legal(After(s, es), Enter(id, fd, dirp, count))
    ensures var s' := After(s, es);
      var path := s'.m.dirFd[PfdKey(PidOf(id), fd)];
      var reply := s'.m.EnterGetdents(id, fd, dirp, count).1;
      && (reply.Override? <==> path in s'.m.cache)
      && (path in s'.m.cache && s'.m.cache[path].nread != 0 ==>
            var log := Log(s', path);
            log != [] && (reply.ret == 0 <==> log[|log| - 1] == Answer(id, s'.m.cache[path].nread)))
  {
    InvKept(s, es);
    assert PathInv(After(s, es), After(s, es).m.dirFd[PfdKey(PidOf(id), fd)]);
  }

  /** What the thread `b` is answered by its next call on a path whose entry holds `ret`
      bytes in `bytes`: all of it that fits, or the end if it was the last to have them. */
  ghost predicate Answered(m: Maps, path: string, ret: int, bytes: seq<Byte>, b: U64, count: nat, reply: Reply) {
    && path in m.cache
    && if m.cache[path].lastPidTgid == b then reply == Override(0, [])
       else |bytes| == 2048 && reply == Override(ret, if count < 2048 then bytes[..count] else bytes)
  }

  lemma FilledEntry(s: State, a: U64, fd: CInt, dirp: U64, count: nat, ret: int, readUser: U64 -> DentsArray)
    requires Legal(s, Enter(a, fd, dirp, count)) && ret >= 0
    requires var path := s.m.dirFd[PfdKey(PidOf(a), fd)]; path !in s.m.cache && |s.m.cache| < 10240
    requires a in s.m.dentsArgs || |s.m.dentsArgs| < 10240
    ensures var path := s.m.dirFd[PfdKey(PidOf(a), fd)];
      var s1 := Apply(s, Enter(a, fd, dirp, count));
      && Legal(s1, Exit(a, ret, readUser))
      && var s2 := Apply(s1, Exit(a, ret, readUser));
      && path in s2.m.cache && s2.m.cache[path] == DentsBuffer(ret, a, readUser(dirp))
  {
  }

  /** A listing of any length is handed on: after a call on an uncached path that went into
      the kernel and returned `ret`, with room in the maps, and whatever is called by anybody
      after that, every call on the path is answered at once; by `ret` with the first 2048 bytes of
      the first caller's buffer, as far as they fit, unless its thread was the last to have them.
      The next thread but the first caller has them in any case. */
  lemma {:induction false} ListingHandedOn(s: State, a: U64, fd: CInt, dirp: U64, count: nat, ret: int,
                                           readUser: U64 -> DentsArray, es: seq<Event>,
                                           b: U64, fd': CInt, dirp': U64, count': nat)
    requires Legal(s, Enter(a, fd, dirp, count)) && ret >= 0
    requires var path := s.m.dirFd[PfdKey(PidOf(a), fd)]; path !in s.m.cache && |s.m.cache| < 10240
    requires a in s.m.dentsArgs || |s.m.dentsArgs| < 10240
    ensures var path := s.m.dirFd[PfdKey(PidOf(a), fd)];
      var s1 := Apply(s, Enter(a, fd, dirp, count));
      && Legal(s1, Exit(a, ret, readUser))
      && var s2 := Apply(s1, Exit(a, ret, readUser));
      && (Run(s2, es) && Legal(After(s2, es), Enter(b, fd', dirp', count'))
          && After(s2, es).m.dirFd[PfdKey(PidOf(b), fd')] == path ==>
            var m := After(s2, es).m;
            && Answered(m, path, ret, readUser(dirp), b, count', m.EnterGetdents(b, fd', dirp', count').1)
            && (es == [] ==> m.cache[path].lastPidTgid == a))
  {
    FilledEntry(s, a, fd, dirp, count, ret, readUser);
    var path := s.m.dirFd[PfdKey(PidOf(a), fd)];
    var s2 := Apply(Apply(s, Enter(a, fd, dirp, count)), Exit(a, ret, readUser));
    if Run(s2, es) {
      CachedListingIsFrozen(s2, es, path);
    }
  }

  /** In particular the next call by another thread has the listing, whatever its length. */
  lemma NextReaderHasTheListing(s: State, a: U64, fd: CInt, dirp: U64, count: nat, ret: int,
                                readUser: U64 -> DentsArray, b: U64, fd': CInt, dirp': U64, count': nat)
    requires Legal(s, Enter(a, fd, dirp, count)) && ret >= 0 && a != b
    requires var path := s.m.dirFd[PfdKey(PidOf(a), fd)];
      && path !in s.m.cache && |s.m.cache| < 10240
      && PfdKey(PidOf(b), fd') in s.m.dirFd && s.m.dirFd[PfdKey(PidOf(b), fd')] == path
    requires a in s.m.dentsArgs || |s.m.dentsArgs| < 10240
    ensures var s1 := Apply(s, Enter(a, fd, dirp, count));
      && Legal(s1, Exit(a, ret, readUser))
      && Apply(s1, Exit(a, ret, readUser)).m.EnterGetdents(b, fd', dirp', count').1 ==
           Override(ret, if count' < 2048 then readUser(dirp)[..count'] else readUser(dirp))
  {
    FilledEntry(s, a, fd, dirp, count, ret, readUser);
  }

  /** Answer `i` from the cache told the end to a thread that had never been handed a byte. */
  predicate EndUnread(log: seq<Answer>, i: nat) {
    && 0 < i < |log| && log[i].ret == 0
    && forall j :: 0 <= j < i && log[j].id == log[i].id ==> log[j].ret == 0
  }

  lemma EndUnreadFilled(log: seq<Answer>, i: nat)
    requires EndOnlyAfterListing(log) && EndUnread(log, i)
    ensures log[0].ret == 0
  {
    var first, before, last := log[0], log[i - 1], log[i];
    assert first.ret == 0 || before == Answer(last.id, first.ret);
  }

  /** The exception is exact: the cache tells the end to a thread that was never handed
      a byte exactly if the call that filled the entry returned 0 and there was a later
      answer; then every answer is 0, whatever the directory contains. */
  lemma EndUnreadIffFilledWithNothing(s: State, es: seq<Event>, path: string)
    requires Initial(s) && Run(s, es)
    ensures var log := Log(After(s, es), path);
      && ((exists i: nat :: EndUnread(log, i)) <==> |log| > 1 && log[0].ret == 0)
      && (log != [] && log[0].ret == 0 ==> forall i :: 0 <= i < |log| ==> log[i].ret == 0)
  {
    EndOfDirectorySafety(s, es, path);
    var log := Log(After(s, es), path);
    if |log| > 1 && log[0].ret == 0 {
      assert EndUnread(log, 1);
    }
    forall i: nat | EndUnread(log, i) ensures |log| > 1 && log[0].ret == 0 {
      EndUnreadFilled(log, i);
    }
  }

  /** It does happen: thread `a` calls on a descriptor that stands at its end, is told 0 by
      the kernel, and every other thread's first call is then told 0 by the cache. */
  lemma FilledWithNothing(s: State, a: U64, fd: CInt, b: U64, fd': CInt, dirp: U64, count: nat,
                          readUser: U64 -> DentsArray)
    requires Initial(s) && a != 0 && b != 0 && a != b && Accepts(s.m.dentsArgs, a)
    requires PfdKey(PidOf(a), fd) in s.m.dirFd && PfdKey(PidOf(b), fd') in s.m.dirFd
    requires s.m.dirFd[PfdKey(PidOf(a), fd)] == s.m.dirFd[PfdKey(PidOf(b), fd')]
    ensures var path := s.m.dirFd[PfdKey(PidOf(a), fd)];
      var es := [Enter(a, fd, dirp, count)] + ([Exit(a, 0, readUser)] + [Enter(b, fd', dirp, count)]);
      Run(s, es) && Log(After(s, es), path) == [Answer(a, 0), Answer(b, 0)]
  {
    var s1 := Apply(s, Enter(a, fd, dirp, count));
    var s2 := Apply(s1, Exit(a, 0, readUser));
    assert Legal(s2, Enter(b, fd', dirp, count));
    RunStep(s2, Enter(b, fd', dirp, count), []);
    assert [Enter(b, fd', dirp, count)] + [] == [Enter(b, fd', dirp, count)];
    RunStep(s1, Exit(a, 0, readUser), [Enter(b, fd', dirp, count)]);
    RunStep(s, Enter(a, fd, dirp, count), [Exit(a, 0, readUser)] + [Enter(b, fd', dirp, count)]);
  }

  lemma RunStep(s: State, e: Event, es: seq<Event>)
    requires Legal(s, e) && Run(Apply(s, e), es)
    ensures Run(s, [e] + es) && After(s, [e] + es) == After(Apply(s, e), es)
  {
    assert ([e] + es)[1..] == es;
  }

  /** A cached listing never changes, whatever is called on whatever descriptor. */
  lemma {:induction false} CachedListingIsFrozen(s: State, es: seq<Event>, path: string)
    requires Run(s, es) && path in s.m.cache
    ensures path in After(s, es).m.cache
    ensures After(s, es).m.cache[path].nread == s.m.cache[path].nread
    ensures After(s, es).m.cache[path].buf == s.m.cache[path].buf
    decreases es
  {
    if es != [] {
      CachedListingIsFrozen(Apply(s, es[0]), es[1..], path);
    }
  }
}
