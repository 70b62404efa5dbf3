/**
 The tracepoint handlers of the FUSE directory cache: the shared hash maps, one
 specification function for each handler, and a class whose methods update the
 maps in place as the handlers do.
 */
module FsCache {

  type U32 = x: int | 0 <= x < 0x1_0000_0000
  type U64 = x: int | 0 <= x < 0x1_0000_0000_0000_0000
  type CInt = x: int | -0x8000_0000 <= x < 0x8000_0000
  type Byte = b: int | 0 <= b < 256

  const CAPACITY := 10240
  const NAME_MAX := 255
  const DENTS_BUF_SIZE := 2048
  const AT_FDCWD: CInt := -100

  /** The fixed array char[DENTS_BUF_SIZE]. */
  type DentsArray = s: seq<Byte> | |s| == DENTS_BUF_SIZE witness seq(DENTS_BUF_SIZE, _ => 0)

  // ---------- Key packing ----------

  /** bpf_get_current_pid_tgid() >> 32. */
  function PidOf(id: U64): U32 { id / 0x1_0000_0000 }

  /** An unsigned long long as its two 32-bit halves. */
  datatype Word64 = Word64(high: U32, low: U32)

  /** The conversion from int to u32. */
  function ToU32(fd: CInt): U32 { if fd < 0 then fd + 0x1_0000_0000 else fd }

  /** The conversion from u32 to unsigned long long. */
  function ZeroExtend(fd: U32): Word64 { Word64(0, fd) }

  /** The conversion from int to unsigned long long. */
  function SignExtend(fd: CInt): Word64 { Word64(if fd < 0 then 0xffff_ffff else 0, ToU32(fd)) }

  /** (pid << 32) | fd.  The upper half of fd is all zeros or all ones, so that the
      bitwise or keeps pid or covers it. */
  function MakePfd(pid: U32, fd: Word64): U64
    requires fd.high in {0, 0xffff_ffff}
  {
    (if fd.high == 0 then pid else 0xffff_ffff) * 0x1_0000_0000 + fd.low
  }

  /** The key under which a descriptor is entered and looked up. */
  function PfdKey(pid: U32, fd: CInt): U64 { MakePfd(pid, ZeroExtend(ToU32(fd))) }

  /** The key that the close handler deletes: its fd stays an int and is sign-extended. */
  function CloseKey(pid: U32, fd: CInt): U64 { MakePfd(pid, SignExtend(fd)) }

  /** The process number of every thread id is its upper half. */
  lemma PidOfThread(pid: U32, tid: U32)
    ensures PidOf(pid * 0x1_0000_0000 + tid) == pid
  {
  }

  /** What the keys are: pid in the upper half and the descriptor in the lower, except that
      the close handler's negative numbers cover the pid. */
  lemma Keys(pid: U32, fd: CInt)
    ensures fd >= 0 ==> PfdKey(pid, fd) == CloseKey(pid, fd) == pid * 0x1_0000_0000 + fd
    ensures fd < 0 ==> PfdKey(pid, fd) == pid * 0x1_0000_0000 + 0x1_0000_0000 + fd
    ensures fd < 0 ==> CloseKey(pid, fd) == 0x1_0000_0000_0000_0000 + fd
  {
  }

  lemma PfdKeyInjective(pid: U32, fd: CInt, pid': U32, fd': CInt)
    ensures PfdKey(pid, fd) == PfdKey(pid', fd') <==> pid == pid' && fd == fd'
  {
  }

  /** Closing a descriptor number deletes that descriptor's own entry, and closing
      a negative number deletes the entry of no descriptor at all. */
  lemma CloseKeyHitsOnlyItsOwn(pid: U32, fd: CInt, pid': U32, fd': CInt)
    requires fd' >= 0
    ensures CloseKey(pid, fd) == PfdKey(pid', fd') <==> pid == pid' && fd == fd'
  {
  }

  // ---------- Map values ----------

  datatype OpenArgs = OpenArgs(fname: string, fnameLen: CInt, flags: int)
  datatype DentsArgs = DentsArgs(fd: CInt, dirp: U64, count: nat)
  datatype DentsBuffer = DentsBuffer(nread: int, lastPidTgid: U64, buf: DentsArray)

  const EMPTY_BUF := DentsBuffer(0, 0, seq(DENTS_BUF_SIZE, _ => 0))

  /** What the traced call sees: it goes on into the kernel, or it returns `ret`
      at once after `written` has been copied to its buffer. */
  datatype Reply = Continue | Override(ret: int, written: seq<Byte>)

  /** bpf_map_update_elem with flags 0: a full hash map takes no new key. */
  function Update<K, V>(m: map<K, V>, k: K, v: V): map<K, V> {
    if k in m || |m| < CAPACITY then m[k := v] else m
  }

  predicate Accepts<K, V>(m: map<K, V>, k: K) { k in m || |m| < CAPACITY }

  /** bpf_probe_read_str into char[NAME_MAX]: the last byte holds the terminator. */
  function ReadName(name: string): string {
    if |name| > NAME_MAX - 1 then name[..NAME_MAX - 1] else name
  }

  /** bpf_strncmp(s1, n, s2) == 0 on strings without an inner terminator. */
  predicate StrnEqual(s1: string, n: nat, s2: string) {
    Take(s1, n) == Take(s2, n)
  }

  function Take(s: string, n: nat): string { if |s| > n then s[..n] else s }

  /** The number of bytes the filter compares: an int passed as a u32. */
  function FilterLength(args: OpenArgs): nat {
    if args.fnameLen > NAME_MAX then NAME_MAX
    else if args.fnameLen < 0 then args.fnameLen + 0x1_0000_0000
    else args.fnameLen
  }

  function Min(a: int, b: int): int { if a < b then a else b }

  // ---------- Specification of the handlers ----------

  datatype Maps = Maps(
    dirFd: map<U64, string>,
    openArgs: map<U64, OpenArgs>,
    filter: map<U32, OpenArgs>,
    cache: map<string, DentsBuffer>,
    dentsArgs: map<U64, DentsArgs>)
  {
    predicate Denied(uid: U32, name: string) {
      uid in filter && StrnEqual(filter[uid].fname, FilterLength(filter[uid]), name)
    }

    function RecordOpen(id: U64, name: string, flags: int): Maps {
      this.(openArgs := Update(openArgs, id, OpenArgs(ReadName(name), 0, flags)))
    }

    function EnterOpen(id: U64, uid: U32, name: string, flags: int): (Maps, Reply) {
      if Denied(uid, name) then (this, Override(-1, []))
      else (RecordOpen(id, name, flags), Continue)
    }

    function EnterOpenat(id: U64, uid: U32, dirfd: CInt, name: string, flags: int): (Maps, Reply) {
      if (dirfd == AT_FDCWD || PfdKey(PidOf(id), dirfd) in dirFd) && Denied(uid, ReadName(name))
      then (this, Override(-1, []))
      else (RecordOpen(id, name, flags), Continue)
    }

    function ExitOpen(absPath: string -> string, id: U64, ret: CInt): Maps {
      if id in openArgs && ret >= 0
      then this.(dirFd := Update(dirFd, PfdKey(PidOf(id), ret), absPath(openArgs[id].fname)))
      else this
    }

    function EnterClose(id: U64, fd: CInt): Maps {
      this.(dirFd := dirFd - {CloseKey(PidOf(id), fd)})
    }

    function EnterGetdents(id: U64, fd: CInt, dirp: U64, count: nat): (Maps, Reply) {
      var key := PfdKey(PidOf(id), fd);
      if key !in dirFd then (this, Continue)
      else if dirFd[key] !in cache then
        (this.(dentsArgs := Update(dentsArgs, id, DentsArgs(fd, dirp, count))), Continue)
      else
        var buf := cache[dirFd[key]];
        if id == buf.lastPidTgid then
          (this.(cache := cache[dirFd[key] := buf.(lastPidTgid := 0)]), Override(0, []))
        else
          (this.(cache := cache[dirFd[key] := buf.(lastPidTgid := id)]),
           Override(buf.nread, buf.buf[..Min(DENTS_BUF_SIZE, count)]))
    }

    /** Whether the exit handler fills the cache entry of `path`. */
    predicate Fills(id: U64, ret: int, path: string) {
      && ret >= 0
      && id in dentsArgs
      && PfdKey(PidOf(id), dentsArgs[id].fd) in dirFd
      && dirFd[PfdKey(PidOf(id), dentsArgs[id].fd)] == path
      && path !in cache
      && |cache| < CAPACITY
    }

    /** `readUser` is what bpf_probe_read copies from an address of the caller. */
    function ExitGetdents(id: U64, ret: int, readUser: U64 -> DentsArray): Maps {
      if ret >= 0 && id in dentsArgs && PfdKey(PidOf(id), dentsArgs[id].fd) in dirFd then
        var path := dirFd[PfdKey(PidOf(id), dentsArgs[id].fd)];
        if Fills(id, ret, path)
        then this.(cache := cache[path := DentsBuffer(ret, id, readUser(dentsArgs[id].dirp))])
        else this
      else this
    }
  }

  /** Both strings have the same character at `k`, or both have ended. */
  predicate AgreeAt(a: string, b: string, k: nat) {
    if k < |a| && k < |b| then a[k] == b[k] else k >= |a| && k >= |b|
  }

  /** strncmp(a, b, n) == 0. */
  ghost predicate SameUpTo(a: string, b: string, n: int) {
    forall k: nat :: k < n ==> AgreeAt(a, b, k)
  }

  lemma TakenAlikeIffSame(a: string, b: string, n: nat)
    ensures Take(a, n) == Take(b, n) <==> SameUpTo(a, b, n)
  {
    if SameUpTo(a, b, n) {
      if |a| < n { assert AgreeAt(a, b, |a|); }
      if |b| < n { assert AgreeAt(a, b, |b|); }
      assert |Take(a, n)| == |Take(b, n)|;
      forall k: nat | k < |Take(a, n)| ensures Take(a, n)[k] == Take(b, n)[k] {
        assert AgreeAt(a, b, k);
      }
    }
    if Take(a, n) == Take(b, n) {
      forall k: nat | k < n ensures AgreeAt(a, b, k) {
        if k < |a| && k < |b| {
          assert Take(a, n)[k] == a[k] && Take(b, n)[k] == b[k];
        }
      }
    }
  }

  /** The filter has an entry for `uid` that does not differ from the name within its length. */
  ghost predicate Filtered(filter: map<U32, OpenArgs>, uid: U32, name: string) {
    && uid in filter
    && var length := filter[uid].fnameLen;
       SameUpTo(filter[uid].fname, name, if length > 255 then 255 else if length < 0 then length + 0x1_0000_0000 else length)
  }

  lemma DeniedIffFiltered(m: Maps, uid: U32, name: string)
    ensures m.Denied(uid, name) <==> Filtered(m.filter, uid, name)
  {
    if uid in m.filter {
      TakenAlikeIffSame(m.filter[uid].fname, name, FilterLength(m.filter[uid]));
    }
  }

  /** The part of a name that a handler keeps. */
  lemma NameRead(name: string)
    ensures ReadName(name) == if |name| <= 254 then name else name[..254]
  {
  }

  /** The entry that a thread leaves for its exit handler, and nothing else, is recorded;
      a map with 10240 other threads' entries takes none. */
  ghost predicate OnlyRecorded(m: Maps, m': Maps, id: U64, read: string, flags: int) {
    && m' == m.(openArgs := m'.openArgs)
    && (forall other: U64 :: other != id ==> SameAt(m.openArgs, m'.openArgs, other))
    && if id in m.openArgs || |m.openArgs| < 10240
       then id in m'.openArgs && m'.openArgs[id].fname == read && m'.openArgs[id].flags == flags
       else m' == m
  }

  predicate SameAt<K, V(==)>(m: map<K, V>, m': map<K, V>, k: K) {
    (k in m <==> k in m') && (k in m ==> m[k] == m'[k])
  }

  /** open: denied, with no change, exactly if the caller's name is filtered for its user. */
  lemma OpenDeniedExactly(m: Maps, id: U64, uid: U32, name: string, flags: int)
    ensures var (m', reply) := m.EnterOpen(id, uid, name, flags);
      if Filtered(m.filter, uid, name) then reply == Override(-1, []) && m' == m
      else reply == Continue && OnlyRecorded(m, m', id, if |name| <= 254 then name else name[..254], flags)
  {
    DeniedIffFiltered(m, uid, name);
  }

  /** openat: denied, with no change, exactly if it is relative to the working directory or
      to a tracked descriptor, and the name read is filtered for its user. */
  lemma OpenatDeniedExactly(m: Maps, id: U64, uid: U32, dirfd: CInt, name: string, flags: int)
    ensures var (m', reply) := m.EnterOpenat(id, uid, dirfd, name, flags);
      var read := if |name| <= 254 then name else name[..254];
      if (dirfd == -100 || PfdKey(PidOf(id), dirfd) in m.dirFd) && Filtered(m.filter, uid, read)
      then reply == Override(-1, []) && m' == m
      else reply == Continue && OnlyRecorded(m, m', id, read, flags)
  {
    DeniedIffFiltered(m, uid, ReadName(name));
  }

  /** What a filter entry matches: the names that begin with its first `n` characters, or,
      if it has no `n` characters, its own name alone. */
  predicate FilterMatches(fname: string, n: nat, name: string) {
    if n <= |fname| then fname[..n] <= name else name == fname
  }

  /** Which names are denied, for every filter entry and every length in it. */
  lemma DeniedIffFilterMatches(m: Maps, uid: U32, name: string)
    requires uid in m.filter
    ensures m.Denied(uid, name) <==> FilterMatches(m.filter[uid].fname, FilterLength(m.filter[uid]), name)
  {
    var f, n := m.filter[uid].fname, FilterLength(m.filter[uid]);
    if n <= |f| {
      assert Take(f, n) == f[..n];
      PrefixIffTake(f[..n], name);
    }
  }

  /** openat filters the name it has read, open the caller's: they disagree exactly on
      names of 255 bytes and more for which the filter reaches behind the 254th byte. */
  lemma OpenatDisagreesIff(m: Maps, uid: U32, name: string)
    requires uid in m.filter
    ensures var f, n := m.filter[uid].fname, FilterLength(m.filter[uid]);
      (m.Denied(uid, ReadName(name)) <==> m.Denied(uid, name)) <==>
        !(|name| >= NAME_MAX &&
          if n <= |f| then n >= NAME_MAX && f[..n] <= name else f == name || f == name[..NAME_MAX - 1])
  {
    var f, n := m.filter[uid].fname, FilterLength(m.filter[uid]);
    DeniedIffFilterMatches(m, uid, name);
    DeniedIffFilterMatches(m, uid, ReadName(name));
    if |name| >= NAME_MAX && n <= |f| && n < NAME_MAX {
      PrefixOfPrefix(f[..n], name, NAME_MAX - 1);
    }
  }

  lemma PrefixOfPrefix(f: string, name: string, k: nat)
    requires |f| <= k <= |name|
    ensures f <= name[..k] <==> f <= name
  {
    assert name[..k][..|f|] == name[..|f|];
  }

  lemma PrefixIffTake(f: string, name: string)
    ensures f == Take(name, |f|) <==> f <= name
  {
    if f <= name {
      assert name[..|f|] == f;
    }
  }

  /** What the handlers of getdents64 leave alone: an untracked descriptor passes and leaves no
      trace, an uncached path leaves its arguments and nothing else, and a call that failed,
      or whose arguments or descriptor are unknown, or whose path is cached, fills nothing. */
  lemma GetdentsLeavesAlone(m: Maps, id: U64, fd: CInt, dirp: U64, count: nat, ret: int, readUser: U64 -> DentsArray)
    ensures var (m', reply) := m.EnterGetdents(id, fd, dirp, count);
      var key := PfdKey(PidOf(id), fd);
      && (key !in m.dirFd ==> m' == m && reply == Continue)
      && (key in m.dirFd && m.dirFd[key] !in m.cache ==>
            && reply == Continue && m' == m.(dentsArgs := m'.dentsArgs)
            && (forall other: U64 :: other != id ==> SameAt(m.dentsArgs, m'.dentsArgs, other))
            && if id in m.dentsArgs || |m.dentsArgs| < 10240
               then id in m'.dentsArgs && m'.dentsArgs[id] == DentsArgs(fd, dirp, count)
               else m' == m)
      && (key in m.dirFd && m.dirFd[key] in m.cache ==>
            && reply.Override? && m' == m.(cache := m'.cache)
            && forall path :: path != m.dirFd[key] ==> SameAt(m.cache, m'.cache, path))
    ensures var m' := m.ExitGetdents(id, ret, readUser);
      && m' == m.(cache := m'.cache)
      && (m' != m ==>
            && ret >= 0 && id in m.dentsArgs && |m.cache| < 10240
            && var key := PfdKey(PidOf(id), m.dentsArgs[id].fd);
            && key in m.dirFd && m.dirFd[key] !in m.cache
            && forall path :: path != m.dirFd[key] ==> SameAt(m.cache, m'.cache, path))
  {
  }

  // ---------- The handlers ----------

  class DirectoryCache {
    const absPath: string -> string
    var dirFdMap: map<U64, string>
    var openArgsStart: map<U64, OpenArgs>
    var openFileFilter: map<U32, OpenArgs>
    var getdentsCacheMap: map<string, DentsBuffer>
    var getdentsArgsStart: map<U64, DentsArgs>

    ghost function State(): Maps
      reads this
    {
      Maps(dirFdMap, openArgsStart, openFileFilter, getdentsCacheMap, getdentsArgsStart)
    }

    constructor (absPath: string -> string, filter: map<U32, OpenArgs>)
      ensures State() == Maps(map[], map[], filter, map[], map[])
      ensures this.absPath == absPath
    {
      this.absPath := absPath;
      dirFdMap, openArgsStart, openFileFilter := map[], map[], filter;
      getdentsCacheMap, getdentsArgsStart := map[], map[];
    }

    method SysEnterOpen(id: U64, uid: U32, name: string, flags: int) returns (reply: Reply)
      modifies this`openArgsStart
      ensures (State(), reply) == old(State()).EnterOpen(id, uid, name, flags)
    {
      if uid in openFileFilter {
        var data := openFileFilter[uid];
        if StrnEqual(data.fname, FilterLength(data), name) {
          return Override(-1, []);
        }
      }
      var args := OpenArgs(ReadName(name), 0, flags);
      openArgsStart := Update(openArgsStart, id, args);
      return Continue;
    }

    method SysEnterOpenat(id: U64, uid: U32, dirfd: CInt, name: string, flags: int) returns (reply: Reply)
      modifies this`openArgsStart
      ensures (State(), reply) == old(State()).EnterOpenat(id, uid, dirfd, name, flags)
    {
      var args := OpenArgs(ReadName(name), 0, flags);
      if dirfd != AT_FDCWD {
        if PfdKey(PidOf(id), dirfd) !in dirFdMap {
          openArgsStart := Update(openArgsStart, id, args);
          return Continue;
        }
      }
      if uid in openFileFilter {
        var data := openFileFilter[uid];
        if StrnEqual(data.fname, FilterLength(data), args.fname) {
          return Override(-1, []);
        }
      }
      openArgsStart := Update(openArgsStart, id, args);
      return Continue;
    }

    method TraceExit(id: U64, ret: CInt)
      modifies this`dirFdMap
      ensures State() == old(State()).ExitOpen(absPath, id, ret)
    {
      if id !in openArgsStart || ret < 0 {
        return;
      }
      var dirPath := absPath(openArgsStart[id].fname);
      dirFdMap := Update(dirFdMap, PfdKey(PidOf(id), ret), dirPath);
    }

    method SysEnterClose(id: U64, fd: CInt)
      modifies this`dirFdMap
      ensures State() == old(State()).EnterClose(id, fd)
    {
      dirFdMap := dirFdMap - {CloseKey(PidOf(id), fd)};
    }

    method SysEnterGetdents64(id: U64, fd: CInt, dirp: U64, count: nat) returns (reply: Reply)
      modifies this`getdentsCacheMap, this`getdentsArgsStart
      ensures (State(), reply) == old(State()).EnterGetdents(id, fd, dirp, count)
    {
      var key := PfdKey(PidOf(id), fd);
      if key !in dirFdMap {
        return Continue;
      }
      var dirData := dirFdMap[key];
      if dirData in getdentsCacheMap {
        var buf := getdentsCacheMap[dirData];
        if id == buf.lastPidTgid {
          getdentsCacheMap := getdentsCacheMap[dirData := buf.(lastPidTgid := 0)];
          return Override(0, []);
        }
        var written := buf.buf[..if DENTS_BUF_SIZE > count then count else DENTS_BUF_SIZE];
        getdentsCacheMap := getdentsCacheMap[dirData := buf.(lastPidTgid := id)];
        return Override(buf.nread, written);
      }
      getdentsArgsStart := Update(getdentsArgsStart, id, DentsArgs(fd, dirp, count));
      return Continue;
    }

    method SysExitGetdents64(id: U64, ret: int, readUser: U64 -> DentsArray)
      modifies this`getdentsCacheMap
      ensures State() == old(State()).ExitGetdents(id, ret, readUser)
    {
      if ret < 0 || id !in getdentsArgsStart {
        return;
      }
      var args := getdentsArgsStart[id];
      var key := PfdKey(PidOf(id), args.fd);
      if key !in dirFdMap || dirFdMap[key] in getdentsCacheMap {
        return;
      }
      var dirData := dirFdMap[key];
      getdentsCacheMap := Update(getdentsCacheMap, dirData, EMPTY_BUF);
      if dirData !in getdentsCacheMap {
        return;
      }
      // The entry is then written through the pointer that the lookup returned.
      var buf := getdentsCacheMap[dirData].(buf := readUser(args.dirp));
      buf := buf.(nread := ret);
      buf := buf.(lastPidTgid := id);
      getdentsCacheMap := getdentsCacheMap[dirData := buf];
    }
  }
}
