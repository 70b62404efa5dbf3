/**
 open, openat and close by any number of processes and threads, interleaved at
 the granularity of one handler or one kernel action, next to the kernel's own
 descriptor table.
 */
module FdTable {
  import opened FsCache

  /** What a call asks for: a name, and the directory it is relative to; by whom, and
      whether by openat. */
  datatype Request = Request(uid: U32, at: bool, dirfd: CInt, name: string)

  /** A kernel descriptor: opened before the handlers were attached, or by a traced call. */
  datatype Descriptor = Inherited | OpenedBy(request: Request)

  /** The system call in which a thread currently is. */
  datatype Call = Opening(request: Request) | Opened(request: Request, ret: CInt) | Closing(fd: CInt)

  /** The traced processes as the kernel sees them.  `table` is the plain record of
      the history: descriptors whose open has returned and whose close has not begun. */
  datatype World = World(
    calls: map<U64, Call>,
    fds: map<(U32, CInt), Descriptor>,
    table: map<(U32, CInt), Request>)

  /** `dropped` says that some full map has refused a new key. */
  datatype State = State(m: Maps, w: World, dropped: bool)

  datatype Event =
    | EnterOpen(id: U64, uid: U32, name: string, flags: int)
    | EnterOpenat(id: U64, uid: U32, dirfd: CInt, name: string, flags: int)
    | KernelOpen(id: U64, ret: CInt)
    | ExitOpen(id: U64)
    | EnterClose(id: U64, fd: CInt)
    | KernelClose(id: U64)

  predicate Initial(s: State) {
    && s.m.dirFd == map[] && s.m.openArgs == map[] && !s.dropped
    && s.w.calls == map[] && s.w.table == map[]
    && forall k :: k in s.w.fds ==> s.w.fds[k] == Inherited && k.1 >= 0
  }

  /** A thread is in one call at a time; the kernel hands out unused descriptors. */
  predicate Legal(w: World, e: Event) {
    match e
    case EnterOpen(id, _, _, _) => id !in w.calls
    case EnterOpenat(id, _, _, _, _) => id !in w.calls
    case KernelOpen(id, ret) =>
      id in w.calls && w.calls[id].Opening? && (ret < 0 || (PidOf(id), ret) !in w.fds)
    case ExitOpen(id) => id in w.calls && w.calls[id].Opened?
    case EnterClose(id, _) => id !in w.calls
    case KernelClose(id) => id in w.calls && w.calls[id].Closing?
  }

  /** `denied`: the enter handler made the call return at once. */
  function Advance(w: World, e: Event, denied: bool): World
    requires Legal(w, e)
  {
    match e
    case EnterOpen(id, uid, name, _) =>
      if denied then w else w.(calls := w.calls[id := Opening(Request(uid, false, AT_FDCWD, name))])
    case EnterOpenat(id, uid, dirfd, name, _) =>
      if denied then w else w.(calls := w.calls[id := Opening(Request(uid, true, dirfd, name))])
    case KernelOpen(id, ret) =>
      var request := w.calls[id].request;
      w.(calls := w.calls[id := Opened(request, ret)],
         fds := if ret < 0 then w.fds else w.fds[(PidOf(id), ret) := OpenedBy(request)])
    case ExitOpen(id) =>
      var Opened(request, ret) := w.calls[id];
      w.(calls := w.calls - {id},
         table := if ret < 0 then w.table else w.table[(PidOf(id), ret) := request])
    case EnterClose(id, fd) =>
      w.(calls := w.calls[id := Closing(fd)], table := w.table - {(PidOf(id), fd)})
    case KernelClose(id) =>
      w.(calls := w.calls - {id}, fds := w.fds - {(PidOf(id), w.calls[id].fd)})
  }

  function Entered(s: State, e: Event, after: (Maps, Reply)): State
    requires Legal(s.w, e)
  {
    State(after.0, Advance(s.w, e, after.1.Override?),
          s.dropped || (after.1.Continue? && !Accepts(s.m.openArgs, e.id)))
  }

  /** The exit handler has an entry to make, and the map refuses it. */
  predicate Refused(m: Maps, id: U64, ret: CInt) {
    id in m.openArgs && ret >= 0 && !Accepts(m.dirFd, PfdKey(PidOf(id), ret))
  }

  function Apply(absPath: string -> string, s: State, e: Event): State
    requires Legal(s.w, e)
  {
    match e
    case EnterOpen(id, uid, name, flags) => Entered(s, e, s.m.EnterOpen(id, uid, name, flags))
    case EnterOpenat(id, uid, dirfd, name, flags) =>
      Entered(s, e, s.m.EnterOpenat(id, uid, dirfd, name, flags))
    case ExitOpen(id) =>
      var ret := s.w.calls[id].ret;
      State(s.m.ExitOpen(absPath, id, ret), Advance(s.w, e, false), s.dropped || Refused(s.m, id, ret))
    case EnterClose(id, fd) => State(s.m.EnterClose(id, fd), Advance(s.w, e, false), s.dropped)
    case _ => s.(w := Advance(s.w, e, false))
  }

  predicate Run(absPath: string -> string, s: State, es: seq<Event>)
    decreases es
  {
    es == [] || (Legal(s.w, es[0]) && Run(absPath, Apply(absPath, s, es[0]), es[1..]))
  }

  function After(absPath: string -> string, s: State, es: seq<Event>): State
    requires Run(absPath, s, es)
    decreases es
  {
    if es == [] then s else After(absPath, Apply(absPath, s, es[0]), es[1..])
  }

  // ---------- dir_fd_map follows the history, whatever the interleaving ----------

  /** The path under which the exit handler enters a descriptor. */
  function TrackedPath(absPath: string -> string, request: Request): string {
    absPath(ReadName(request.name))
  }

  /** `d` holds the descriptors of `t`, each under the path computed for its own request. */
  ghost predicate Mirrors(absPath: string -> string, d: map<U64, string>, t: map<(U32, CInt), Request>) {
    forall pid: U32, fd: CInt ::
      && (PfdKey(pid, fd) in d <==> (pid, fd) in t)
      && ((pid, fd) in t ==> d[PfdKey(pid, fd)] == TrackedPath(absPath, t[(pid, fd)]))
  }

  /** The entry that a thread left for its exit handler is that of its own call,
      not one left over from an earlier call. */
  ghost predicate OwnArgs(s: State) {
    forall id: U64 :: id in s.w.calls && (s.w.calls[id].Opening? || s.w.calls[id].Opened?) ==>
      && (id in s.m.openArgs ==> s.m.openArgs[id].fname == ReadName(s.w.calls[id].request.name))
      && (!s.dropped ==> id in s.m.openArgs)
  }

  ghost predicate NonNegative<V>(t: map<(U32, CInt), V>) {
    forall k :: k in t ==> k.1 >= 0
  }

  ghost predicate HistoryInv(absPath: string -> string, s: State) {
    && OwnArgs(s)
    && NonNegative(s.w.table)
    && (!s.dropped ==> Mirrors(absPath, s.m.dirFd, s.w.table))
  }

  lemma CloseKeyFor(pid: U32, fd: CInt)
    ensures forall pid': U32, fd': CInt :: fd' >= 0 ==>
      (CloseKey(pid, fd) == PfdKey(pid', fd') <==> pid == pid' && fd == fd')
  {
    forall pid': U32, fd': CInt | fd' >= 0
      ensures CloseKey(pid, fd) == PfdKey(pid', fd') <==> pid == pid' && fd == fd'
    {
      CloseKeyHitsOnlyItsOwn(pid, fd, pid', fd');
    }
  }

  lemma KeysDiffer(pid: U32, fd: CInt)
    ensures forall pid': U32, fd': CInt :: PfdKey(pid, fd) == PfdKey(pid', fd') ==> pid == pid' && fd == fd'
  {
    forall pid': U32, fd': CInt ensures PfdKey(pid, fd) == PfdKey(pid', fd') ==> pid == pid' && fd == fd' {
      PfdKeyInjective(pid, fd, pid', fd');
    }
  }

  lemma EnterStep(absPath: string -> string, s: State, e: Event, name: string, flags: int, after: (Maps, Reply))
    requires HistoryInv(absPath, s) && Legal(s.w, e)
    requires (e.EnterOpen? || e.EnterOpenat?) && e.name == name
    requires after.0 == if after.1.Continue? then s.m.RecordOpen(e.id, name, flags) else s.m
    ensures HistoryInv(absPath, Entered(s, e, after))
  {
  }

  lemma HistoryCloseStep(absPath: string -> string, s: State, e: Event)
    requires HistoryInv(absPath, s) && Legal(s.w, e) && e.EnterClose?
    ensures HistoryInv(absPath, Apply(absPath, s, e))
  {
    CloseKeyFor(PidOf(e.id), e.fd);
  }

  lemma HistoryExitStep(absPath: string -> string, s: State, e: Event)
    requires HistoryInv(absPath, s) && Legal(s.w, e) && e.ExitOpen?
    ensures HistoryInv(absPath, Apply(absPath, s, e))
  {
    KeysDiffer(PidOf(e.id), s.w.calls[e.id].ret);
  }

  lemma HistoryStep(absPath: string -> string, s: State, e: Event)
    requires HistoryInv(absPath, s) && Legal(s.w, e)
    ensures HistoryInv(absPath, Apply(absPath, s, e))
  {
    match e
    case EnterOpen(id, uid, name, flags) =>
      EnterStep(absPath, s, e, name, flags, s.m.EnterOpen(id, uid, name, flags));
    case EnterOpenat(id, uid, dirfd, name, flags) =>
      EnterStep(absPath, s, e, name, flags, s.m.EnterOpenat(id, uid, dirfd, name, flags));
    case EnterClose(id, fd) => HistoryCloseStep(absPath, s, e);
    case ExitOpen(id) => HistoryExitStep(absPath, s, e);
    case KernelOpen(id, ret) =>
    case KernelClose(id) =>
  }

  lemma {:induction false} HistoryInvKept(absPath: string -> string, s: State, es: seq<Event>)
    requires HistoryInv(absPath, s) && Run(absPath, s, es)
    ensures HistoryInv(absPath, After(absPath, s, es))
    decreases es
  {
    if es != [] {
      HistoryStep(absPath, s, es[0]);
      HistoryInvKept(absPath, Apply(absPath, s, es[0]), es[1..]);
    }
  }

  /** In every interleaving in which no entry was refused, dir_fd_map is exactly the
      table of descriptors opened and not since closed, each under the path of its own
      call's name as far as that was read. */
  lemma {:induction false} DirFdMapFollowsHistory(absPath: string -> string, s: State, es: seq<Event>)
    requires Initial(s) && Run(absPath, s, es)
    ensures var s' := After(absPath, s, es);
      !s'.dropped ==> Mirrors(absPath, s'.m.dirFd, s'.w.table)
  {
    HistoryInvKept(absPath, s, es);
  }

  // ---------- The filter over whole runs ----------

  /** The name that the filter is compared with, the caller's own in open and the one read
      in openat, is not filtered, if the request is relative to the working directory. */
  ghost predicate Allowed(filter: map<U32, OpenArgs>, r: Request) {
    r.dirfd == -100 ==> !Filtered(filter, r.uid, if r.at && |r.name| > 254 then r.name[..254] else r.name)
  }

  ghost predicate AllAllowed(filter: map<U32, OpenArgs>, w: World) {
    && (forall id: U64 :: id in w.calls && !w.calls[id].Closing? ==> Allowed(filter, w.calls[id].request))
    && (forall k :: k in w.fds && w.fds[k].OpenedBy? ==> Allowed(filter, w.fds[k].request))
    && (forall k :: k in w.table ==> Allowed(filter, w.table[k]))
  }

  lemma AllowedStep(absPath: string -> string, s: State, e: Event)
    requires AllAllowed(s.m.filter, s.w) && Legal(s.w, e)
    ensures Apply(absPath, s, e).m.filter == s.m.filter && AllAllowed(s.m.filter, Apply(absPath, s, e).w)
  {
    match e
    case EnterOpen(id, uid, name, flags) => OpenDeniedExactly(s.m, id, uid, name, flags);
    case EnterOpenat(id, uid, dirfd, name, flags) => OpenatDeniedExactly(s.m, id, uid, dirfd, name, flags);
    case _ =>
  }

  lemma {:induction false} AllowedKept(absPath: string -> string, s: State, es: seq<Event>)
    requires AllAllowed(s.m.filter, s.w) && Run(absPath, s, es)
    ensures After(absPath, s, es).m.filter == s.m.filter && AllAllowed(s.m.filter, After(absPath, s, es).w)
    decreases es
  {
    if es != [] {
      AllowedStep(absPath, s, es[0]);
      AllowedKept(absPath, Apply(absPath, s, es[0]), es[1..]);
    }
  }

  /** In every interleaving the kernel has no descriptor that was requested relative to the
      working directory by a name filtered for its user, and, as long as no entry was
      refused, none is tracked. */
  lemma {:induction false} FilteredNeverOpened(absPath: string -> string, s: State, es: seq<Event>)
    requires Initial(s) && Run(absPath, s, es)
    ensures var s' := After(absPath, s, es);
      && (forall k :: k in s'.w.fds && s'.w.fds[k].OpenedBy? ==> Allowed(s.m.filter, s'.w.fds[k].request))
      && (!s'.dropped ==> forall pid: U32, fd: CInt :: PfdKey(pid, fd) in s'.m.dirFd ==>
            (pid, fd) in s'.w.table && Allowed(s.m.filter, s'.w.table[(pid, fd)]))
  {
    AllowedKept(absPath, s, es);
    DirFdMapFollowsHistory(absPath, s, es);
  }

  // ---------- dir_fd_map against the kernel's descriptors ----------

  /** The call is between the kernel's action and the handler on descriptor `fd`. */
  predicate Claims(call: Call, fd: CInt) {
    fd >= 0 && match call
               case Opening(_) => false
               case Opened(_, ret) => ret == fd
               case Closing(fd') => fd' == fd
  }

  ghost predicate ClaimedBy(w: World, id: U64, pid: U32, fd: CInt) {
    id in w.calls && PidOf(id) == pid && Claims(w.calls[id], fd)
  }

  ghost predicate ClaimedByOther(w: World, id: U64, pid: U32, fd: CInt) {
    exists id': U64 :: id' != id && ClaimedBy(w, id', pid, fd)
  }

  ghost predicate Contested(w: World, pid: U32, fd: CInt) {
    exists id: U64 :: ClaimedBy(w, id, pid, fd)
  }

  /** The kernel has given the number to an open that has not returned yet. */
  ghost predicate BeingOpened(w: World, pid: U32, fd: CInt) {
    exists id: U64 :: ClaimedBy(w, id, pid, fd) && w.calls[id].Opened?
  }

  /** A close of the number has begun that the kernel has not carried out yet. */
  ghost predicate BeingClosed(w: World, pid: U32, fd: CInt) {
    exists id: U64 :: ClaimedBy(w, id, pid, fd) && w.calls[id].Closing?
  }

  /** No close begins on a number that an open is about to return, and no open is given
      a number that a close is still naming.  Closes of one number may overlap. */
  ghost predicate RaceFree(w: World, e: Event) {
    match e
    case KernelOpen(id, ret) => !BeingClosed(w, PidOf(id), ret)
    case EnterClose(id, fd) => !BeingOpened(w, PidOf(id), fd)
    case _ => true
  }

  ghost predicate RaceFreeRun(absPath: string -> string, s: State, es: seq<Event>)
    requires Run(absPath, s, es)
    decreases es
  {
    es == [] || (RaceFree(s.w, es[0]) && RaceFreeRun(absPath, Apply(absPath, s, es[0]), es[1..]))
  }

  /** A number that an open is about to return is claimed by no other call. */
  ghost predicate SingleClaim(w: World) {
    forall id: U64, pid: U32, fd: CInt :: ClaimedBy(w, id, pid, fd) && w.calls[id].Opened? ==>
      !ClaimedByOther(w, id, pid, fd)
  }

  ghost predicate OpenedInKernel(w: World) {
    forall id: U64 :: id in w.calls && w.calls[id].Opened? && w.calls[id].ret >= 0 ==>
      && (PidOf(id), w.calls[id].ret) in w.fds
      && w.fds[(PidOf(id), w.calls[id].ret)] == OpenedBy(w.calls[id].request)
  }

  /** The kernel has the descriptor open by a traced call, and no call is under way on it. */
  ghost predicate Settled(w: World, pid: U32, fd: CInt) {
    (pid, fd) in w.fds && w.fds[(pid, fd)].OpenedBy? && !Contested(w, pid, fd)
  }

  ghost predicate TableAt(w: World, pid: U32, fd: CInt) {
    && ((pid, fd) in w.table <==> Settled(w, pid, fd))
    && ((pid, fd) in w.table ==> w.fds[(pid, fd)] == OpenedBy(w.table[(pid, fd)]))
  }

  ghost predicate WorldInv(w: World) {
    && SingleClaim(w)
    && OpenedInKernel(w)
    && (forall pid: U32, fd: CInt :: TableAt(w, pid, fd))
    && NonNegative(w.fds)
    && NonNegative(w.table)
  }

  /** Where only thread `me` moves, the claims of the others stay. */
  lemma OtherClaimsStay(w: World, w': World, me: U64, pid: U32, fd: CInt)
    requires forall id: U64 :: id != me ==> SameAt(w.calls, w'.calls, id)
    ensures forall id: U64 :: id != me ==> (ClaimedBy(w', id, pid, fd) <==> ClaimedBy(w, id, pid, fd))
    ensures ClaimedByOther(w', me, pid, fd) <==> ClaimedByOther(w, me, pid, fd)
    ensures Contested(w, pid, fd) <==> ClaimedBy(w, me, pid, fd) || ClaimedByOther(w, me, pid, fd)
    ensures Contested(w', pid, fd) <==> ClaimedBy(w', me, pid, fd) || ClaimedByOther(w, me, pid, fd)
  {
    forall id: U64 | id != me ensures ClaimedBy(w', id, pid, fd) <==> ClaimedBy(w, id, pid, fd) {
      assert SameAt(w.calls, w'.calls, id);
    }
  }

  /** Nobody else claims a number that the kernel gives away. */
  lemma GivenAway(w: World, id: U64, ret: CInt)
    requires WorldInv(w) && Legal(w, KernelOpen(id, ret)) && RaceFree(w, KernelOpen(id, ret)) && ret >= 0
    ensures !Contested(w, PidOf(id), ret)
  {
    if id': U64 :| ClaimedBy(w, id', PidOf(id), ret) {
      assert BeingClosed(w, PidOf(id), ret);
    }
  }

  lemma SingleClaimStep(w: World, e: Event, denied: bool)
    requires WorldInv(w) && Legal(w, e) && RaceFree(w, e)
    ensures SingleClaim(Advance(w, e, denied))
  {
    var w' := Advance(w, e, denied);
    if e.KernelOpen? && e.ret >= 0 {
      GivenAway(w, e.id, e.ret);
    }
    forall id: U64, pid: U32, fd: CInt | ClaimedBy(w', id, pid, fd) && w'.calls[id].Opened?
      ensures !ClaimedByOther(w', id, pid, fd)
    {
      OtherClaimsStay(w, w', e.id, pid, fd);
      if id != e.id {
        assert ClaimedBy(w, id, pid, fd);
        assert BeingOpened(w, pid, fd) && Contested(w, pid, fd);
      }
    }
  }

  lemma OpenedStep(w: World, e: Event, denied: bool)
    requires WorldInv(w) && Legal(w, e) && RaceFree(w, e)
    ensures OpenedInKernel(Advance(w, e, denied))
  {
    if e.KernelClose? {
      var fd := w.calls[e.id].fd;
      forall id: U64 | id in w.calls && w.calls[id].Opened? && w.calls[id].ret >= 0 && PidOf(id) == PidOf(e.id)
        ensures w.calls[id].ret != fd
      {
        if w.calls[id].ret == fd {
          assert ClaimedBy(w, e.id, PidOf(id), fd);
          assert ClaimedBy(w, id, PidOf(id), fd);
        }
      }
    }
  }

  lemma TableStep(w: World, e: Event, denied: bool, pid: U32, fd: CInt)
    requires WorldInv(w) && Legal(w, e) && RaceFree(w, e)
    ensures TableAt(Advance(w, e, denied), pid, fd)
  {
    var w' := Advance(w, e, denied);
    OtherClaimsStay(w, w', e.id, pid, fd);
    assert TableAt(w, pid, fd);
    match e
    case EnterClose(id, fd') =>
    case ExitOpen(id) =>
      assert ClaimedBy(w, id, pid, fd) ==> !ClaimedByOther(w, id, pid, fd);
    case KernelOpen(id, ret) =>
      if ret >= 0 {
        GivenAway(w, id, ret);
      }
    case KernelClose(id) =>
    case _ =>
  }

  lemma WorldStep(w: World, e: Event, denied: bool)
    requires WorldInv(w) && Legal(w, e) && RaceFree(w, e)
    ensures WorldInv(Advance(w, e, denied))
  {
    SingleClaimStep(w, e, denied);
    OpenedStep(w, e, denied);
    forall pid: U32, fd: CInt ensures TableAt(Advance(w, e, denied), pid, fd) {
      TableStep(w, e, denied, pid, fd);
    }
  }

  ghost predicate SubTableAt(absPath: string -> string, s: State, pid: U32, fd: CInt) {
    PfdKey(pid, fd) in s.m.dirFd ==>
      (pid, fd) in s.w.table && s.m.dirFd[PfdKey(pid, fd)] == TrackedPath(absPath, s.w.table[(pid, fd)])
  }

  /** Every tracked descriptor is in the table, under the path of its request. */
  ghost predicate SubTable(absPath: string -> string, s: State) {
    forall pid: U32, fd: CInt :: SubTableAt(absPath, s, pid, fd)
  }

  lemma SubTableExitStep(absPath: string -> string, s: State, e: Event)
    requires WorldInv(s.w) && HistoryInv(absPath, s) && SubTable(absPath, s)
    requires Legal(s.w, e) && e.ExitOpen?
    ensures SubTable(absPath, Apply(absPath, s, e))
  {
    var pid, ret := PidOf(e.id), s.w.calls[e.id].ret;
    KeysDiffer(pid, ret);
    assert ret >= 0 ==> ClaimedBy(s.w, e.id, pid, ret);
    assert TableAt(s.w, pid, ret) && SubTableAt(absPath, s, pid, ret);
    forall pid': U32, fd': CInt ensures SubTableAt(absPath, Apply(absPath, s, e), pid', fd') {
      assert SubTableAt(absPath, s, pid', fd');
    }
  }

  lemma SubTableCloseStep(absPath: string -> string, s: State, e: Event)
    requires SubTable(absPath, s) && NonNegative(s.w.table) && Legal(s.w, e) && e.EnterClose?
    ensures SubTable(absPath, Apply(absPath, s, e))
  {
    CloseKeyFor(PidOf(e.id), e.fd);
    forall pid: U32, fd: CInt ensures SubTableAt(absPath, Apply(absPath, s, e), pid, fd) {
      assert SubTableAt(absPath, s, pid, fd);
    }
  }

  lemma SubTableStep(absPath: string -> string, s: State, e: Event)
    requires HistoryInv(absPath, s) && WorldInv(s.w) && SubTable(absPath, s)
    requires Legal(s.w, e)
    ensures SubTable(absPath, Apply(absPath, s, e))
  {
    match e
    case EnterClose(id, fd) => SubTableCloseStep(absPath, s, e);
    case ExitOpen(id) => SubTableExitStep(absPath, s, e);
    case _ =>
      forall pid: U32, fd: CInt ensures SubTableAt(absPath, Apply(absPath, s, e), pid, fd) {
        assert SubTableAt(absPath, s, pid, fd);
      }
  }

  ghost predicate KernelInv(absPath: string -> string, s: State) {
    HistoryInv(absPath, s) && WorldInv(s.w) && SubTable(absPath, s)
  }

  lemma KernelStep(absPath: string -> string, s: State, e: Event)
    requires KernelInv(absPath, s) && Legal(s.w, e) && RaceFree(s.w, e)
    ensures KernelInv(absPath, Apply(absPath, s, e))
  {
    HistoryStep(absPath, s, e);
    SubTableStep(absPath, s, e);
    WorldStep(s.w, e, true);
    WorldStep(s.w, e, false);
  }

  lemma {:induction false} KernelInvKept(absPath: string -> string, s: State, es: seq<Event>)
    requires KernelInv(absPath, s) && Run(absPath, s, es) && RaceFreeRun(absPath, s, es)
    ensures KernelInv(absPath, After(absPath, s, es))
    decreases es
  {
    if es != [] {
      KernelStep(absPath, s, es[0]);
      KernelInvKept(absPath, Apply(absPath, s, es[0]), es[1..]);
    }
  }

  lemma InitialInv(absPath: string -> string, s: State)
    requires Initial(s)
    ensures KernelInv(absPath, s)
  {
    forall pid: U32, fd: CInt ensures TableAt(s.w, pid, fd) {
    }
  }

  /** Every tracked descriptor is open in the kernel, under the path that its request has
      by itself: its name as far as it was read, whatever directory it was relative to. */
  ghost predicate Refines(absPath: string -> string, s: State) {
    forall pid: U32, fd: CInt :: RefinesAt(absPath, s, pid, fd)
  }

  ghost predicate RefinesAt(absPath: string -> string, s: State, pid: U32, fd: CInt) {
    PfdKey(pid, fd) in s.m.dirFd ==>
      && (pid, fd) in s.w.fds && s.w.fds[(pid, fd)].OpenedBy?
      && s.m.dirFd[PfdKey(pid, fd)] == TrackedPath(absPath, s.w.fds[(pid, fd)].request)
  }

  lemma InvRefines(absPath: string -> string, s: State)
    requires KernelInv(absPath, s)
    ensures Refines(absPath, s)
    ensures forall pid: U32, fd: CInt :: PfdKey(pid, fd) in s.m.dirFd ==> Settled(s.w, pid, fd)
    ensures !s.dropped ==> forall pid: U32, fd: CInt :: Settled(s.w, pid, fd) ==> PfdKey(pid, fd) in s.m.dirFd
  {
    forall pid: U32, fd: CInt
      ensures RefinesAt(absPath, s, pid, fd)
      ensures PfdKey(pid, fd) in s.m.dirFd ==> Settled(s.w, pid, fd)
      ensures !s.dropped && Settled(s.w, pid, fd) ==> PfdKey(pid, fd) in s.m.dirFd
    {
      assert TableAt(s.w, pid, fd) && SubTableAt(absPath, s, pid, fd);
    }
  }

  /** In every race-free interleaving a tracked descriptor is one that the kernel has
      open by a request of the tracked path and on which no call is under way, even after
      a full map has refused entries; and while none has been refused, every settled
      descriptor is tracked. */
  lemma DirFdMapRefinesKernel(absPath: string -> string, s: State, es: seq<Event>)
    requires Initial(s) && Run(absPath, s, es) && RaceFreeRun(absPath, s, es)
    ensures var s' := After(absPath, s, es);
      && Refines(absPath, s')
      && (forall pid: U32, fd: CInt :: PfdKey(pid, fd) in s'.m.dirFd ==> Settled(s'.w, pid, fd))
      && (!s'.dropped ==> forall pid: U32, fd: CInt :: Settled(s'.w, pid, fd) ==> PfdKey(pid, fd) in s'.m.dirFd)
  {
    InitialInv(absPath, s);
    KernelInvKept(absPath, s, es);
    InvRefines(absPath, After(absPath, s, es));
  }

  // ---------- The condition is exact ----------

  lemma RunStep(absPath: string -> string, s: State, e: Event, es: seq<Event>)
    requires Legal(s.w, e) && Run(absPath, Apply(absPath, s, e), es)
    ensures Run(absPath, s, [e] + es)
    ensures After(absPath, s, [e] + es) == After(absPath, Apply(absPath, s, e), es)
    ensures RaceFreeRun(absPath, s, [e] + es) <==>
      RaceFree(s.w, e) && RaceFreeRun(absPath, Apply(absPath, s, e), es)
    ensures RoomyRun(absPath, s, [e] + es) <==> Room(s) && RoomyRun(absPath, Apply(absPath, s, e), es)
  {
    assert ([e] + es)[1..] == es;
  }

  lemma StaleExit(absPath: string -> string, s: State, a: U64, fd: CInt)
    requires a in s.w.calls && s.w.calls[a].Opened? && s.w.calls[a].ret == fd >= 0
    requires a in s.m.openArgs && Accepts(s.m.dirFd, PfdKey(PidOf(a), fd)) && (PidOf(a), fd) !in s.w.fds
    ensures !RefinesAt(absPath, Apply(absPath, s, ExitOpen(a)), PidOf(a), fd)
  {
  }

  /** An open is about to return a number that a close is about to take away: the kernel
      may carry out the close first, and the exit handler then enters a dead descriptor. */
  lemma OvertakenOpenGoesStale(absPath: string -> string, s: State, a: U64, b: U64, fd: CInt)
      returns (es: seq<Event>)
    requires a in s.w.calls && s.w.calls[a].Opened? && s.w.calls[a].ret == fd >= 0
    requires b in s.w.calls && s.w.calls[b] == Closing(fd) && PidOf(b) == PidOf(a)
    requires a in s.m.openArgs && Accepts(s.m.dirFd, PfdKey(PidOf(a), fd))
    ensures Run(absPath, s, es) && RaceFreeRun(absPath, s, es)
    ensures !RefinesAt(absPath, After(absPath, s, es), PidOf(a), fd)
  {
    var s1 := Apply(absPath, s, KernelClose(b));
    assert s1.m == s.m && s1.w.calls[a] == s.w.calls[a];
    StaleExit(absPath, s1, a, fd);
    RunStep(absPath, s1, ExitOpen(a), []);
    RunStep(absPath, s, KernelClose(b), [ExitOpen(a)]);
    es := [KernelClose(b)] + [ExitOpen(a)];
  }

  lemma RemovalShrinks<K, V>(m: map<K, V>, k: K)
    ensures |m - {k}| <= |m|
  {
    assert |m| == |m.Keys| && |m - {k}| == |(m - {k}).Keys| && (m - {k}).Keys == m.Keys - {k};
    assert k in m ==> |m.Keys| == |m.Keys - {k}| + 1;
    assert k !in m ==> m.Keys - {k} == m.Keys;
  }

  /** There is room for another descriptor, and no entry has been refused so far. */
  predicate Room(s: State) { !s.dropped && |s.m.dirFd| < CAPACITY }

  /** A close begins on a number that an open is about to return. */
  lemma RacingClose(absPath: string -> string, s: State, b: U64, fd: CInt) returns (es: seq<Event>)
    requires OwnArgs(s) && Room(s) && Legal(s.w, EnterClose(b, fd)) && !RaceFree(s.w, EnterClose(b, fd))
    ensures var s' := Apply(absPath, s, EnterClose(b, fd));
      Run(absPath, s', es) && RaceFreeRun(absPath, s', es) && !Refines(absPath, After(absPath, s', es))
  {
    var a: U64 :| ClaimedBy(s.w, a, PidOf(b), fd) && s.w.calls[a].Opened?;
    var s' := Apply(absPath, s, EnterClose(b, fd));
    assert a in s.m.openArgs && s'.m.openArgs == s.m.openArgs && s'.w.calls[a] == s.w.calls[a];
    RemovalShrinks(s.m.dirFd, CloseKey(PidOf(b), fd));
    es := OvertakenOpenGoesStale(absPath, s', a, b, fd);
  }

  /** An open is given a number that a close is still naming. */
  lemma RacingOpen(absPath: string -> string, s: State, a: U64, fd: CInt) returns (es: seq<Event>)
    requires OwnArgs(s) && Room(s) && Legal(s.w, KernelOpen(a, fd)) && !RaceFree(s.w, KernelOpen(a, fd))
    ensures var s' := Apply(absPath, s, KernelOpen(a, fd));
      Run(absPath, s', es) && RaceFreeRun(absPath, s', es) && !Refines(absPath, After(absPath, s', es))
  {
    var b: U64 :| ClaimedBy(s.w, b, PidOf(a), fd) && s.w.calls[b].Closing?;
    var s' := Apply(absPath, s, KernelOpen(a, fd));
    assert a in s.m.openArgs && s'.m == s.m && s'.w.calls[b] == s.w.calls[b];
    es := OvertakenOpenGoesStale(absPath, s', a, b, fd);
  }

  /** At every step of the run, and whatever race-free steps follow, dir_fd_map refines
      the kernel's table. */
  ghost predicate AlwaysRefines(absPath: string -> string, s: State, es: seq<Event>)
    requires Run(absPath, s, es)
    decreases es
  {
    && RefinesEver(absPath, s)
    && (es != [] ==> AlwaysRefines(absPath, Apply(absPath, s, es[0]), es[1..]))
  }

  ghost predicate RefinesEver(absPath: string -> string, s: State) {
    forall more: seq<Event> :: Run(absPath, s, more) && RaceFreeRun(absPath, s, more) ==>
      Refines(absPath, After(absPath, s, more))
  }

  /** There is room before every step. */
  predicate RoomyRun(absPath: string -> string, s: State, es: seq<Event>)
    requires Run(absPath, s, es)
    decreases es
  {
    es == [] || (Room(s) && RoomyRun(absPath, Apply(absPath, s, es[0]), es[1..]))
  }

  lemma InvRefinesEver(absPath: string -> string, s: State)
    requires KernelInv(absPath, s)
    ensures RefinesEver(absPath, s)
  {
    forall more: seq<Event> | Run(absPath, s, more) && RaceFreeRun(absPath, s, more)
      ensures Refines(absPath, After(absPath, s, more))
    {
      KernelInvKept(absPath, s, more);
      InvRefines(absPath, After(absPath, s, more));
    }
  }

  lemma RaceRefinesNot(absPath: string -> string, s: State, e: Event)
    requires OwnArgs(s) && Room(s) && Legal(s.w, e) && !RaceFree(s.w, e)
    ensures !RefinesEver(absPath, Apply(absPath, s, e))
  {
    if e.EnterClose? {
      var es := RacingClose(absPath, s, e.id, e.fd);
    } else {
      var es := RacingOpen(absPath, s, e.id, e.ret);
    }
  }

  lemma {:induction false} AlwaysRefinesIffRaceFree(absPath: string -> string, s: State, es: seq<Event>)
    requires KernelInv(absPath, s) && Run(absPath, s, es) && RoomyRun(absPath, s, es)
    ensures AlwaysRefines(absPath, s, es) <==> RaceFreeRun(absPath, s, es)
    decreases es
  {
    InvRefinesEver(absPath, s);
    if es != [] {
      if RaceFree(s.w, es[0]) {
        KernelStep(absPath, s, es[0]);
        AlwaysRefinesIffRaceFree(absPath, Apply(absPath, s, es[0]), es[1..]);
      } else {
        RaceRefinesNot(absPath, s, es[0]);
      }
    }
  }

  /** As long as there is room, dir_fd_map refines the kernel's table at every step of a
      run, and whatever race-free steps follow, exactly if the run is race-free. */
  lemma RefinesExactlyIfRaceFree(absPath: string -> string, s: State, es: seq<Event>)
    requires Initial(s) && Run(absPath, s, es) && RoomyRun(absPath, s, es)
    ensures AlwaysRefines(absPath, s, es) <==> RaceFreeRun(absPath, s, es)
  {
    InitialInv(absPath, s);
    AlwaysRefinesIffRaceFree(absPath, s, es);
  }

  /** Such a run exists from every initial state: an open, and a close of its number by
      another thread of the process before the open has returned. */
  lemma RacingRun(absPath: string -> string, s: State, a: U64, uid: U32, name: string, b: U64, fd: CInt)
    requires Initial(s) && !s.m.Denied(uid, ReadName(name)) && a != b && PidOf(a) == PidOf(b)
    requires fd >= 0 && (PidOf(a), fd) !in s.w.fds
    ensures var es := [EnterOpenat(a, uid, AT_FDCWD, name, 0)] + ([KernelOpen(a, fd)] + [EnterClose(b, fd)]);
      && Run(absPath, s, es) && RoomyRun(absPath, s, es)
      && !RaceFreeRun(absPath, s, es) && !AlwaysRefines(absPath, s, es)
  {
    var s1 := EnteredOpenat(absPath, s, a, uid, AT_FDCWD, name);
    var s2 := Apply(absPath, s1, KernelOpen(a, fd));
    assert ClaimedBy(s2.w, a, PidOf(b), fd) && BeingOpened(s2.w, PidOf(b), fd);
    OneEvent(absPath, s2, EnterClose(b, fd));
    RunStep(absPath, s1, KernelOpen(a, fd), [EnterClose(b, fd)]);
    RunStep(absPath, s, EnterOpenat(a, uid, AT_FDCWD, name, 0), [KernelOpen(a, fd)] + [EnterClose(b, fd)]);
    var es := [EnterOpenat(a, uid, AT_FDCWD, name, 0)] + ([KernelOpen(a, fd)] + [EnterClose(b, fd)]);
    RefinesExactlyIfRaceFree(absPath, s, es);
  }

  // ---------- Names ----------

  lemma OneEvent(absPath: string -> string, s: State, e: Event)
    requires Legal(s.w, e)
    ensures Run(absPath, s, [e]) && After(absPath, s, [e]) == Apply(absPath, s, e)
    ensures RaceFreeRun(absPath, s, [e]) <==> RaceFree(s.w, e)
    ensures RoomyRun(absPath, s, [e]) <==> Room(s)
  {
    assert [e] + [] == [e];
    RunStep(absPath, s, e, []);
  }

  lemma EnteredOpenat(absPath: string -> string, s: State, id: U64, uid: U32, dirfd: CInt, name: string) returns (s': State)
    requires Initial(s) && !s.m.Denied(uid, ReadName(name))
    ensures Legal(s.w, EnterOpenat(id, uid, dirfd, name, 0)) && s' == Apply(absPath, s, EnterOpenat(id, uid, dirfd, name, 0))
    ensures s'.w == s.w.(calls := map[id := Opening(Request(uid, true, dirfd, name))])
    ensures s'.m.dirFd == map[] && !s'.dropped && id in s'.m.openArgs && s'.m.openArgs[id].fname == ReadName(name)
  {
    s' := Apply(absPath, s, EnterOpenat(id, uid, dirfd, name, 0));
  }

  /** What the handlers make of a name is the caller's own name exactly if that has at most
      254 bytes; of the directory nothing is kept at all.  So the run of one openat, with any
      name and relative to any directory, leaves a descriptor that the kernel knows by both
      and the map by the name read. */
  lemma TrackedByNameRead(absPath: string -> string, s: State, id: U64, uid: U32, dirfd: CInt, name: string, fd: CInt)
    requires Initial(s) && !s.m.Denied(uid, ReadName(name))
    requires fd >= 0 && (PidOf(id), fd) !in s.w.fds
    ensures var es := [EnterOpenat(id, uid, dirfd, name, 0)] + ([KernelOpen(id, fd)] + [ExitOpen(id)]);
      && Run(absPath, s, es)
      && var s' := After(absPath, s, es);
      && (PidOf(id), fd) in s'.w.fds && s'.w.fds[(PidOf(id), fd)] == OpenedBy(Request(uid, true, dirfd, name))
      && PfdKey(PidOf(id), fd) in s'.m.dirFd && s'.m.dirFd[PfdKey(PidOf(id), fd)] == absPath(ReadName(name))
    ensures ReadName(name) == name <==> |name| <= NAME_MAX - 1
  {
    var s1 := EnteredOpenat(absPath, s, id, uid, dirfd, name);
    var s2 := Apply(absPath, s1, KernelOpen(id, fd));
    OneEvent(absPath, s2, ExitOpen(id));
    RunStep(absPath, s1, KernelOpen(id, fd), [ExitOpen(id)]);
    RunStep(absPath, s, EnterOpenat(id, uid, dirfd, name, 0), [KernelOpen(id, fd)] + [ExitOpen(id)]);
  }

  /** Where the kernel's table is refined (so in every race-free run) and absolute paths tell
      names apart, two tracked descriptors share a path, and with it a cached listing, exactly
      if the first 254 bytes of their names agree: their directories make no difference,
      nor does anything behind those bytes. */
  lemma PathSharedIff(absPath: string -> string, s: State, pid: U32, fd: CInt, pid': U32, fd': CInt)
    requires RefinesAt(absPath, s, pid, fd) && RefinesAt(absPath, s, pid', fd')
    requires PfdKey(pid, fd) in s.m.dirFd && PfdKey(pid', fd') in s.m.dirFd
    requires TellsApart(absPath, s.w.fds[(pid, fd)].request.name, s.w.fds[(pid', fd')].request.name)
    ensures s.m.dirFd[PfdKey(pid, fd)] == s.m.dirFd[PfdKey(pid', fd')] <==>
      Take(s.w.fds[(pid, fd)].request.name, NAME_MAX - 1) == Take(s.w.fds[(pid', fd')].request.name, NAME_MAX - 1)
  {
  }

  /** Different names, as read, have different absolute paths. */
  predicate TellsApart(absPath: string -> string, name: string, name': string) {
    absPath(ReadName(name)) == absPath(ReadName(name')) ==> ReadName(name) == ReadName(name')
  }
}
