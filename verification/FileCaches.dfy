/**
 The on-disk cache of rofs/cache.go, which trusts a file that has the right size.
 */
module FileCaches {
  import opened Prelude
  import opened Files
  import opened Downloads
  import opened Downloaders
  import Ranges

  datatype FileMeta = FileMeta(blocks: seq<BlockInfo>, size: nat, blockSize: nat)

  /******* Identity and path *******/

  function Keys(blocks: seq<BlockInfo>): seq<Bytes> {
    seq(|blocks|, i requires 0 <= i < |blocks| => blocks[i].key)
  }

  function ID(md5: Hash, m: FileMeta): string {
    Ranges.ToHex(md5(Concat(Keys(m.blocks))))
  }

  function PathOf(base: string, hash: string): string {
    var dir := if |hash| >= 2 then base + "/" + hash[0..2] else base;
    var sub := if |hash| >= 4 then dir + "/" + hash[2..4] else dir;
    if hash == "" then sub else sub + "/" + hash
  }

  // The path ends in the whole hash, and its length tells the hash's.
  lemma PathIsInjective(base: string, g: string, h: string)
    requires PathOf(base, g) == PathOf(base, h)
    ensures g == h
  {
    var p := PathOf(base, g);
    assert |g| == |h|;
    assert p[|p| - |g|..] == g && p[|p| - |h|..] == h;
  }

  function DirOf(name: string): string {
    if name == "" then "" else if name[|name| - 1] == '/' then name[..|name| - 1] else DirOf(name[..|name| - 1])
  }

  predicate NoSlash(name: string) {
    forall i :: 0 <= i < |name| ==> name[i] != '/'
  }

  lemma {:induction false} DirOfJoined(dir: string, name: string)
    requires NoSlash(name)
    ensures DirOf(dir + "/" + name) == dir
  {
    var p := dir + "/" + name;
    if name == "" {
      assert p[|p| - 1] == '/' && p[..|p| - 1] == dir;
    } else {
      assert p[|p| - 1] == name[|name| - 1];
      assert p[..|p| - 1] == dir + "/" + name[..|name| - 1];
      DirOfJoined(dir, name[..|name| - 1]);
    }
  }

  // The files stand two levels below the base, and two of them in one directory iff
  // their hashes begin with the same four digits.
  lemma FilesAreSharded(base: string, g: string, h: string)
    requires |g| >= 4 && NoSlash(g) && |h| >= 4 && NoSlash(h)
    ensures DirOf(PathOf(base, g)) == DirOf(PathOf(base, h)) <==> g[..4] == h[..4]
    ensures DirOf(DirOf(DirOf(PathOf(base, g)))) == base
  {
    ShardOf(base, g);
    ShardOf(base, h);
    ShardIsInjective(base, g, h);
    DirOfJoined(base + "/" + g[..2], g[2..4]);
    DirOfJoined(base, g[..2]);
  }

  lemma ShardIsInjective(base: string, g: string, h: string)
    requires |g| >= 4 && |h| >= 4
    ensures base + "/" + g[..2] + "/" + g[2..4] == base + "/" + h[..2] + "/" + h[2..4] <==> g[..4] == h[..4]
  {
    var p, q, n := base + "/" + g[..2] + "/" + g[2..4], base + "/" + h[..2] + "/" + h[2..4], |base| + 1;
    assert p[n..n + 2] == g[..2] && p[n + 3..n + 5] == g[2..4];
    assert q[n..n + 2] == h[..2] && q[n + 3..n + 5] == h[2..4];
    assert g[..4] == g[..2] + g[2..4] && h[..4] == h[..2] + h[2..4];
    assert g[..4][..2] == g[..2] && g[..4][2..] == g[2..4] && h[..4][..2] == h[..2] && h[..4][2..] == h[2..4];
  }

  lemma ShardOf(base: string, h: string)
    requires |h| >= 4 && NoSlash(h)
    ensures DirOf(PathOf(base, h)) == base + "/" + h[..2] + "/" + h[2..4]
  {
    DirOfJoined(base + "/" + h[..2] + "/" + h[2..4], h);
  }

  lemma {:induction false} JoinedIsInjective(a: seq<Bytes>, m: nat, b: seq<Bytes>, n: nat, size: nat)
    requires m <= |a| && n <= |b| && size > 0
    requires (forall i :: 0 <= i < m ==> |a[i]| == size) && (forall i :: 0 <= i < n ==> |b[i]| == size)
    requires Joined(a, m) == Joined(b, n)
    ensures a[..m] == b[..n]
  {
    if m > 0 && n > 0 {
      var c := Joined(a, m);
      assert c[..|c| - size] == Joined(a, m - 1) && c[|c| - size..] == a[m - 1];
      assert c[..|c| - size] == Joined(b, n - 1) && c[|c| - size..] == b[n - 1];
      JoinedIsInjective(a, m - 1, b, n - 1, size);
      assert a[..m] == a[..m - 1] + [a[m - 1]] && b[..n] == b[..n - 1] + [b[n - 1]];
    }
  }

  /******* What the blocks hold *******/

  // plain: the data of the block stored under a key. metas: the files that the
  // flists of this world describe. data: what its stores ever answer for a file's
  // blocks, each under its own key, and that passes the block's check.
  datatype World = World(
    hash: Hash, md5: Hash, plain: Bytes -> Bytes, keySize: nat, metas: iset<FileMeta>, data: FileMeta -> iset<Bytes>)

  // No two of the files have different keys under one md5.
  ghost predicate WorldOk(w: World) {
    match w
    case World(_, md5, _, keySize, metas, _) =>
      && keySize > 0
      && forall m, n :: m in metas && n in metas && md5(Concat(Keys(m.blocks))) == md5(Concat(Keys(n.blocks))) ==>
           Concat(Keys(m.blocks)) == Concat(Keys(n.blocks))
  }

  ghost function Blocks(w: World, m: FileMeta): seq<Bytes> {
    seq(|m.blocks|, i requires 0 <= i < |m.blocks| => w.plain(m.blocks[i].key))
  }

  ghost function Content(w: World, m: FileMeta): Bytes {
    Concat(Blocks(w, m))
  }

  ghost function SetupOf(w: World, m: FileMeta): Setup {
    Setup(m.blocks, m.blockSize, w.hash)
  }

  // Of the data that the stores ever answer, only the block itself passes its check.
  ghost predicate NoCollision(w: World, m: FileMeta) {
    && AllAccepted(SetupOf(w, m), Blocks(w, m))
    && forall i: nat, raw :: raw in w.data(m) && Accepted(SetupOf(w, m), i, raw) ==> raw == Blocks(w, m)[i]
  }

  // A file of this world: keys of one length, no collision, full blocks that add
  // up to the size, and the bounds of the stored format.
  ghost predicate MetaOk(w: World, m: FileMeta) {
    match m
    case FileMeta(blocks, size, blockSize) =>
      && m in w.metas
      && |blocks| < 0x2000_0000 && blockSize <= 0xFFFF * 4096
      && (forall b :: b in blocks ==> |b.key| == w.keySize)
      && NoCollision(w, m)
      && FullBlocks(blockSize, Blocks(w, m))
      && size == |Content(w, m)|
  }

  // Files with one path have the same block keys, hence the same bytes.
  lemma SamePathSameContent(w: World, base: string, m: FileMeta, n: FileMeta)
    requires WorldOk(w) && MetaOk(w, m) && MetaOk(w, n)
    requires PathOf(base, ID(w.md5, m)) == PathOf(base, ID(w.md5, n))
    ensures Keys(m.blocks) == Keys(n.blocks) && Content(w, m) == Content(w, n) && m.size == n.size
  {
    PathIsInjective(base, ID(w.md5, m), ID(w.md5, n));
    Ranges.BytesSurviveHex(w.md5(Concat(Keys(m.blocks))));
    Ranges.BytesSurviveHex(w.md5(Concat(Keys(n.blocks))));
    JoinedIsInjective(Keys(m.blocks), |m.blocks|, Keys(n.blocks), |n.blocks|, w.keySize);
    assert Keys(m.blocks)[..|m.blocks|] == Keys(m.blocks) && Keys(n.blocks)[..|n.blocks|] == Keys(n.blocks);
    assert |Blocks(w, m)| == |Keys(m.blocks)| && |Blocks(w, n)| == |Keys(n.blocks)|;
    forall i | 0 <= i < |m.blocks| ensures Blocks(w, m)[i] == Blocks(w, n)[i] {
      assert Keys(m.blocks)[i] == Keys(n.blocks)[i];
    }
    assert Blocks(w, m) == Blocks(w, n);
  }

  lemma SizeIsExact(w: World, m: FileMeta)
    requires MetaOk(w, m)
    ensures ToInt64(m.size) == m.size
  {
    var blocks := Blocks(w, m);
    if blocks != [] {
      FullBlocksConcat([], m.blockSize, blocks);
      OffsetBound(|blocks| - 1, m.blockSize);
    }
  }

  // A hit, or a download that succeeded.
  ghost predicate Served(w: World, m: FileMeta, before: Bytes, after: Bytes) {
    if |before| == m.size then after == before
    else SetupOk(SetupOf(w, m)) && Ran(SetupOf(w, m), 0, w.data(m), before, after, Success)
  }

  // A download that succeeds leaves the file's bytes, and what lay beyond them.
  lemma SuccessServes(w: World, m: FileMeta, before: Bytes, after: Bytes)
    requires MetaOk(w, m) && SetupOk(SetupOf(w, m)) && Ran(SetupOf(w, m), 0, w.data(m), before, after, Success)
    ensures after == Over(before, Content(w, m))
    ensures after == Content(w, m) <==> |before| <= m.size
  {
    var u := SetupOf(w, m);
    var steps, s :| RanBy(u, 0, w.data(m), before, after, Success, steps, s);
    var workers := |Begun(u, 0, before).workers|;
    var contents := SuccessIsConcat(u, workers, before, steps, s);
    WrittenWasFetched(u, workers, before, steps, s, w.data(m));
    forall i | 0 <= i < |contents| ensures contents[i] == Blocks(w, m)[i] {
      assert s.got[i] == contents[i];
    }
    assert contents == Blocks(w, m);
  }

  // A file left by an earlier run is served right iff it is shorter than it
  // should be or already right: the download does not cut a longer file.
  lemma ServedRightIffNotLonger(w: World, m: FileMeta, before: Bytes, after: Bytes)
    requires MetaOk(w, m) && Served(w, m, before, after)
    ensures after == Content(w, m) <==> |before| < m.size || before == Content(w, m)
  {
    if |before| != m.size {
      SuccessServes(w, m, before, after);
    }
  }

  // Every file that has a block can be served, if the stores have its blocks.
  lemma CanBeServed(w: World, m: FileMeta, before: Bytes) returns (after: Bytes)
    requires MetaOk(w, m) && SetupOk(SetupOf(w, m))
    requires forall i :: 0 <= i < |m.blocks| ==> w.plain(m.blocks[i].key) in w.data(m)
    ensures Served(w, m, before, after)
  {
    if |before| == m.size {
      return before;
    }
    var u := SetupOf(w, m);
    StuckIffNegative(u, 0, before);
    var steps, s := SuccessExists(u, |Begun(u, 0, before).workers|, before, Blocks(w, m));
    assert RanBy(u, 0, w.data(m), before, s.file, Success, steps, s);
    after := s.file;
  }

  // A file of one byte, found with two: it is downloaded, and keeps the second.
  lemma LongerFileIsKept() returns (w: World, m: FileMeta, before: Bytes, after: Bytes)
    ensures WorldOk(w) && MetaOk(w, m) && Served(w, m, before, after)
    ensures after == [7, 9] && Content(w, m) == [7]
  {
    m := FileMeta([BlockInfo([7], [7])], 1, 4096);
    w := World((b: Bytes) => b, (b: Bytes) => b, (b: Bytes) => b, 1, iset{m}, (_: FileMeta) => iset{[7]});
    before := [8, 9];
    assert Blocks(w, m) == [[7]];
    assert Joined([[7]], 1) == Joined([[7]], 0) + [7];
    assert Content(w, m) == [7];
    assert MetaOk(w, m);
    after := CanBeServed(w, m, before);
    SuccessServes(w, m, before, after);
    assert Over(before, [7]) == [7, 9];
  }

  /******* The cache *******/

  datatype CacheError = OpenFailed | LockFailed | StatFailed | SyncFailed | SeekFailed
      | DownloadFailed(error: DownloadError)

  // System calls other than those on an open file, and whether they succeeded.
  datatype Kind = Open | Mkdir | Lock | Stat | Sync | Unlock

  datatype SysCall = SysCall(kind: Kind, ok: bool)

  // What a call did: the system calls that open the file, those that follow, failed
  // calls on the file, and what the store was asked and answered.
  datatype CallLog = CallLog(opens: seq<SysCall>, calls: seq<SysCall>, fileFaults: nat, attempts: seq<Attempt>)

  datatype Opened = Opened(file: File) | NotExist | Refused

  // One open, or a second one once the directory was made.
  ghost predicate OpensAs(opens: seq<SysCall>, ok: bool) {
    || opens == [SysCall(Open, ok)]
    || opens == [SysCall(Open, true), SysCall(Mkdir, true), SysCall(Open, ok)]
    || (!ok && opens == [SysCall(Open, true), SysCall(Mkdir, false)])
  }

  // How a download ends: failed is None when it succeeds.
  ghost predicate DownloadIsRecorded(codec: Codec, m: FileMeta, failed: Option<DownloadError>, fileFaults: nat,
                                     attempts: seq<Attempt>) {
    match failed
    case None => m.blocks != [] && m.blockSize > 0 && EndsAs(codec, m.blocks, attempts, fileFaults > 0, Success)
    case Some(NoBlocks) => m.blocks == []
    case Some(NoBlockSize) => m.blocks != [] && m.blockSize == 0
    case Some(Hangs) => false
    case Some(Failed(outcome)) => outcome != Success && EndsAs(codec, m.blocks, attempts, fileFaults > 0, outcome)
  }

  // What is called under the lock, besides the calls on the open file.
  function CallsFor(hit: bool, error: Option<CacheError>): seq<SysCall> {
    match error
    case Some(StatFailed) => [SysCall(Stat, false)]
    case Some(DownloadFailed(_)) => [SysCall(Stat, true)]
    case Some(SyncFailed) => [SysCall(Stat, true), SysCall(Sync, false)]
    case _ => if hit then [SysCall(Stat, true)] else [SysCall(Stat, true), SysCall(Sync, true)]
  }

  // After a hit nothing is asked of the store, and nothing else can fail. Otherwise the
  // file is returned after a download, a sync and a rewind, and each error is that of
  // the one step that failed.
  ghost predicate ServedAs(codec: Codec, m: FileMeta, hit: bool, error: Option<CacheError>, log: CallLog) {
    match error
    case None =>
      && log.fileFaults == 0
      && if hit then log.attempts == [] else DownloadIsRecorded(codec, m, None, 0, log.attempts)
    case Some(DownloadFailed(e)) => !hit && DownloadIsRecorded(codec, m, Some(e), log.fileFaults, log.attempts)
    case Some(SyncFailed) => !hit && DownloadIsRecorded(codec, m, None, 0, log.attempts)
    case Some(SeekFailed) => !hit && DownloadIsRecorded(codec, m, None, 0, log.attempts) && log.fileFaults > 0
    case _ => log.attempts == []
  }

  function Around(calls: seq<SysCall>, unlocked: bool): seq<SysCall> {
    [SysCall(Lock, true)] + calls + [SysCall(Unlock, unlocked)]
  }

  // Without the lock nothing is done; with it, it is given back whatever was done. That
  // this may fail is of no account.
  predicate LocksAs(hit: bool, error: Option<CacheError>, calls: seq<SysCall>) {
    match error
    case Some(LockFailed) => calls == [SysCall(Lock, false)]
    case _ => calls == Around(CallsFor(hit, error), true) || calls == Around(CallsFor(hit, error), false)
  }

  // A file that is returned was looked at under the lock and, after a download, synced.
  lemma SuccessCalls(hit: bool, calls: seq<SysCall>)
    requires LocksAs(hit, None, calls)
    ensures |calls| == if hit then 3 else 4
    ensures calls[0] == SysCall(Lock, true) && calls[1] == SysCall(Stat, true) && calls[|calls| - 1].kind == Unlock
    ensures !hit ==> calls[2] == SysCall(Sync, true)
  {}

  // What the caller gets for a file found with the given size, and all that was done.
  ghost predicate Answered(codec: Codec, m: FileMeta, found: nat, error: Option<CacheError>, log: CallLog) {
    match error
    case Some(OpenFailed) => OpensAs(log.opens, false) && log.calls == [] && log.attempts == []
    case _ =>
      && OpensAs(log.opens, true)
      && LocksAs(found == m.size, error, log.calls) && ServedAs(codec, m, found == m.size, error, log)
  }

  function ErrorOf<T>(r: Result<T, CacheError>): Option<CacheError> {
    if r.Ok? then None else Some(r.error)
  }

  ghost predicate AllOk(calls: seq<SysCall>) {
    forall k :: 0 <= k < |calls| ==> calls[k].ok
  }

  // If no system call and no call on the file failed, the file is returned iff it had
  // the right size or every block could be fetched.
  lemma OkIffHitOrFetched(codec: Codec, m: FileMeta, found: nat, error: Option<CacheError>, log: CallLog)
    requires Answered(codec, m, found, error, log) && log.fileFaults == 0 && AllOk(log.opens) && AllOk(log.calls)
    ensures error.None? <==>
              found == m.size || (m.blocks != [] && m.blockSize > 0 && AllFine(codec, m.blocks, log.attempts))
  {
    assert |log.opens| > 0 ==> log.opens[|log.opens| - 1].ok;
    assert |log.calls| > 0 ==> log.calls[0].ok;
    assert |log.calls| > 1 ==> log.calls[1].ok;
    assert |log.calls| > 2 ==> log.calls[2].ok;
  }

  class Cache {
    const base: string
    const storage: Storage
    const codec: Codec
    const md5: Hash
    ghost const w: World
    var dirs: set<string>
    var disk: map<string, Inode>
    ghost var calls: seq<SysCall>

    function Name(m: FileMeta): string {
      PathOf(base, ID(md5, m))
    }

    // Every cached file is shorter than it should be, or right.
    ghost predicate Valid()
      reads `disk, `dirs, disk.Values
    {
      && WorldOk(w) && codec.hash == w.hash && md5 == w.md5 && StoresAreOf(w, storage.may, codec)
      && (forall p :: p in disk ==> DirOf(p) in dirs)
      && (forall p, q :: p in disk && q in disk && p != q ==> disk[p] != disk[q])
      && forall m :: MetaOk(w, m) ==> Right(m)
    }

    ghost predicate Right(m: FileMeta)
      reads `disk, `dirs, disk.Values
    {
      Name(m) in disk ==> |disk[Name(m)].bytes| < m.size || disk[Name(m)].bytes == Content(w, m)
    }

    // The size that the file is found with: a missing one is created empty.
    ghost function SizeFound(m: FileMeta): nat
      reads `disk, `dirs, disk.Values
    {
      if Name(m) in disk then |disk[Name(m)].bytes| else 0
    }

    constructor (base: string, storage: Storage, codec: Codec, md5: Hash, ghost w: World)
      requires WorldOk(w) && codec.hash == w.hash && md5 == w.md5 && StoresAreOf(w, storage.may, codec)
      ensures Valid() && disk == map[] && calls == []
      ensures this.base == base && this.storage == storage && this.md5 == md5 && this.w == w
    {
      this.base, this.storage, this.codec, this.md5, this.w := base, storage, codec, md5, w;
      dirs, disk, calls := {}, map[], [];
    }

    // A system call that succeeds or fails, on record.
    method Call(kind: Kind) returns (ok: bool)
      modifies `calls
      ensures calls == old(calls) + [SysCall(kind, ok)]
    {
      ok := *;
      calls := calls + [SysCall(kind, ok)];
    }

    // open(2) with O_CREATE: a file that does not exist is made empty, unless its
    // directory is missing.
    method OpenOrCreate(name: string) returns (r: Opened)
      modifies `disk, `calls
      ensures r.Opened? ==> name in disk && fresh(r.file) && r.file.inode == disk[name]
      ensures r.Opened? ==> r.file.pos == 0 && r.file.faults == 0
      ensures r.Opened? && name !in old(disk) ==>
                DirOf(name) in dirs && fresh(disk[name]) && disk[name].bytes == []
                    && disk == old(disk)[name := disk[name]]
      ensures name in old(disk) || !r.Opened? ==> disk == old(disk)
      ensures r.NotExist? ==> DirOf(name) !in dirs
      ensures calls == old(calls) + [SysCall(Open, !r.Refused?)]
    {
      var ok := Call(Open);
      if !ok {
        return Refused;
      }
      if name !in disk {
        if DirOf(name) !in dirs {
          return NotExist;
        }
        var inode := new Inode([]);
        disk := disk[name := inode];
      }
      var file := new File(disk[name]);
      return Opened(file);
    }

    method MakeDirs(dir: string) returns (ok: bool)
      modifies `dirs, `calls
      ensures dirs == old(dirs) + if ok then {dir} else {}
      ensures calls == old(calls) + [SysCall(Mkdir, ok)]
    {
      ok := Call(Mkdir);
      if ok {
        dirs := dirs + {dir};
      }
    }

    // Opens the file, making its directory when that was what was missing.
    method Ensure(name: string) returns (r: Option<File>, ghost opens: seq<SysCall>)
      modifies `disk, `dirs, `calls
      ensures old(dirs) <= dirs
      ensures r.Some? ==> name in disk && fresh(r.value) && r.value.inode == disk[name]
      ensures r.Some? ==> r.value.pos == 0 && r.value.faults == 0
      ensures r.Some? && name !in old(disk) ==>
                DirOf(name) in dirs && fresh(disk[name]) && disk[name].bytes == []
                    && disk == old(disk)[name := disk[name]]
      ensures name in old(disk) || r.None? ==> disk == old(disk)
      ensures calls == old(calls) + opens && OpensAs(opens, r.Some?)
    {
      opens := [];
      while true
        invariant disk == old(disk) && old(dirs) <= dirs && calls == old(calls) + opens
        invariant opens == [] || (opens == [SysCall(Open, true), SysCall(Mkdir, true)] && DirOf(name) in dirs)
        decreases DirOf(name) !in dirs
      {
        var attempt := OpenOrCreate(name);
        match attempt {
          case NotExist =>
            var ok := MakeDirs(DirOf(name));
            opens := [SysCall(Open, true), SysCall(Mkdir, ok)];
            if !ok {
              return None, opens;
            }
          case Refused => return None, opens + [SysCall(Open, false)];
          case Opened(file) => return Some(file), opens + [SysCall(Open, true)];
        }
      }
    }

    // An empty file is right or shorter than it should be.
    twostate lemma EmptyIsRight(name: string)
      requires old(Valid()) && old(dirs) <= dirs
      requires name in disk && DirOf(name) in dirs && name !in old(disk) && fresh(disk[name])
      requires disk == old(disk)[name := disk[name]] && disk[name].bytes == []
      requires forall p :: p in old(disk) ==> unchanged(old(disk)[p])
      ensures Valid()
    {
      forall m | MetaOk(w, m) ensures Right(m) {
        assert old(Right(m));
        if Name(m) == name && m.size == 0 {
          assert Content(w, m) == [];
        }
      }
    }

    // Opens the cached file, right or shorter than it should be.
    method EnsureRight(m: FileMeta) returns (f: Option<File>, ghost opens: seq<SysCall>)
      requires Valid()
      modifies `disk, `dirs, `calls
      ensures Valid()
      ensures f.Some? ==> Name(m) in disk && fresh(f.value) && f.value.inode == disk[Name(m)] && f.value.pos == 0
      ensures f.Some? ==> f.value.faults == 0 && |f.value.inode.bytes| == old(SizeFound(m))
      ensures forall p :: p in old(disk) ==> p in disk && disk[p] == old(disk)[p]
      ensures f.Some? && Name(m) !in old(disk) ==> fresh(disk[Name(m)])
      ensures calls == old(calls) + opens && OpensAs(opens, f.Some?)
    {
      label start:
      f, opens := Ensure(Name(m));
      if disk != old(disk) {
        EmptyIsRight@start(Name(m));
      }
    }

    // Makes sure that a file is there, and returns its size. It fails only if the
    // open or the stat did.
    method Check(m: FileMeta) returns (size: Option<nat>, ghost log: seq<SysCall>)
      requires Valid()
      modifies `disk, `dirs, `calls
      ensures Valid()
      ensures size.Some? ==> Name(m) in disk && size.value == |disk[Name(m)].bytes| == old(SizeFound(m))
      ensures forall p :: p in old(disk) ==> p in disk && disk[p] == old(disk)[p]
      ensures calls == old(calls) + log
      ensures if log != [] && log[|log| - 1].kind == Stat
              then OpensAs(log[..|log| - 1], true) && log[|log| - 1].ok == size.Some?
              else OpensAs(log, false) && size.None?
    {
      var f;
      f, log := EnsureRight(m);
      if f.None? {
        return None, log;
      }
      ghost var opens := log;
      var ok := Call(Stat);
      log := opens + [SysCall(Stat, ok)];
      assert log[..|log| - 1] == opens;
      size := if ok then Some(|f.value.inode.bytes|) else None;
    }

    // The file's own bytes, from the cache or downloaded. Close and Remove after a
    // failed download are one step.
    method CheckAndGet(m: FileMeta) returns (r: Result<File, CacheError>, ghost log: CallLog)
      requires Valid() && MetaOk(w, m)
      modifies this, disk.Values, storage
      ensures Valid()
      ensures r.Ok? ==>
                && Name(m) in disk && r.value.inode == disk[Name(m)] && r.value.pos == 0
                && r.value.inode.bytes == Content(w, m)
      ensures r.Err? && r.error.DownloadFailed? ==> Name(m) !in disk
      ensures OthersKept(Name(m))
      ensures Name(m) in old(disk) && old(SizeFound(m)) == m.size ==>
                && Name(m) in disk && disk[Name(m)] == old(disk[Name(m)])
                && disk[Name(m)].bytes == old(disk[Name(m)].bytes)
      ensures calls == old(calls) + log.opens + log.calls
      ensures Indexed(m.blocks, log.attempts) && storage.log == old(storage.log) + LogOf(m.blocks, log.attempts)
      ensures Answered(codec, m, old(SizeFound(m)), ErrorOf(r), log)
    {
      assert LogOf(m.blocks, []) == [];
      var attempt;
      ghost var opens;
      attempt, opens := EnsureRight(m);
      if attempt.None? {
        return Err(OpenFailed), CallLog(opens, [], 0, []);
      }
      r, log := LockAndServe(attempt.value, m, old(SizeFound(m)) == m.size, opens);
    }

    // All files but one stand as they stood.
    twostate predicate OthersKept(name: string)
      reads this, disk.Values
    {
      forall p :: p in old(disk) && p != name ==>
        p in disk && disk[p] == old(disk)[p] && disk[p].bytes == old(disk[p].bytes)
    }

    method LockAndServe(f: File, m: FileMeta, ghost hit: bool, ghost opens: seq<SysCall>)
      returns (r: Result<File, CacheError>, ghost log: CallLog)
      requires Valid() && MetaOk(w, m) && Name(m) in disk && f.inode == disk[Name(m)] && f.pos == 0 && f.faults == 0
      requires hit <==> |f.inode.bytes| == m.size
      modifies `disk, `calls, f, f.inode, storage
      ensures Valid()
      ensures r.Ok? ==> r.value == f && f.pos == 0 && f.inode.bytes == Content(w, m)
      ensures disk == if r.Err? && r.error.DownloadFailed? then old(disk) - {Name(m)} else old(disk)
      ensures hit ==> f.inode.bytes == old(f.inode.bytes)
      ensures calls == old(calls) + log.calls && log.opens == opens
      ensures Indexed(m.blocks, log.attempts) && storage.log == old(storage.log) + LogOf(m.blocks, log.attempts)
      ensures ErrorOf(r) != Some(OpenFailed) && LocksAs(hit, ErrorOf(r), log.calls)
      ensures ServedAs(codec, m, hit, ErrorOf(r), log)
    {
      var locked := Call(Lock);
      if !locked {
        assert LogOf(m.blocks, []) == [];
        return Err(LockFailed), CallLog(opens, [SysCall(Lock, false)], 0, []);
      }
      r, log := ServeAndUnlock(f, m, hit, opens);
    }

    // The lock was taken.
    method ServeAndUnlock(f: File, m: FileMeta, ghost hit: bool, ghost opens: seq<SysCall>)
      returns (r: Result<File, CacheError>, ghost log: CallLog)
      requires Valid() && MetaOk(w, m) && Name(m) in disk && f.inode == disk[Name(m)] && f.pos == 0 && f.faults == 0
      requires hit <==> |f.inode.bytes| == m.size
      modifies `disk, `calls, f, f.inode, storage
      ensures Valid()
      ensures r.Ok? ==> r.value == f && f.pos == 0 && f.inode.bytes == Content(w, m)
      ensures disk == if r.Err? && r.error.DownloadFailed? then old(disk) - {Name(m)} else old(disk)
      ensures hit ==> f.inode.bytes == old(f.inode.bytes)
      ensures Indexed(m.blocks, log.attempts) && storage.log == old(storage.log) + LogOf(m.blocks, log.attempts)
      ensures log.opens == opens && log.calls != [] && log.calls[0] == SysCall(Lock, true)
      ensures calls == old(calls) + log.calls[1..]
      ensures ErrorOf(r) != Some(OpenFailed) && LocksAs(hit, ErrorOf(r), log.calls)
      ensures ServedAs(codec, m, hit, ErrorOf(r), log)
    {
      ghost var inner;
      r, inner := Serve(f, m, hit);
      var unlocked := Call(Unlock);
      log := CallLog(opens, Around(inner.calls, unlocked), inner.fileFaults, inner.attempts);
    }

    // What is done under the lock.
    method Serve(f: File, m: FileMeta, ghost hit: bool) returns (r: Result<File, CacheError>, ghost log: CallLog)
      requires Valid() && MetaOk(w, m) && Name(m) in disk && f.inode == disk[Name(m)] && f.pos == 0 && f.faults == 0
      requires hit <==> |f.inode.bytes| == m.size
      modifies `disk, `calls, f, f.inode, storage
      ensures Valid()
      ensures r.Ok? ==> r.value == f && f.pos == 0 && f.inode.bytes == Content(w, m)
      ensures disk == if r.Err? && r.error.DownloadFailed? then old(disk) - {Name(m)} else old(disk)
      ensures hit ==> f.inode.bytes == old(f.inode.bytes)
      ensures calls == old(calls) + log.calls && log.fileFaults == f.faults
      ensures Indexed(m.blocks, log.attempts) && storage.log == old(storage.log) + LogOf(m.blocks, log.attempts)
      ensures ErrorOf(r) != Some(OpenFailed) && ErrorOf(r) != Some(LockFailed)
      ensures log.calls == CallsFor(hit, ErrorOf(r))
      ensures ServedAs(codec, m, hit, ErrorOf(r), log)
    {
      assert Right(m);
      assert LogOf(m.blocks, []) == [];
      var stated := Call(Stat);
      if !stated {
        return Err(StatFailed), CallLog([], [SysCall(Stat, false)], 0, []);
      }
      SizeIsExact(w, m);
      if |f.inode.bytes| == ToInt64(m.size) {
        return Ok(f), CallLog([], [SysCall(Stat, true)], 0, []);
      }
      r, log := Refill(f, m);
      log := log.(calls := [SysCall(Stat, true)] + log.calls);
    }

    // The file did not have its size.
    method Refill(f: File, m: FileMeta) returns (r: Result<File, CacheError>, ghost log: CallLog)
      requires Valid() && MetaOk(w, m) && Name(m) in disk && f.inode == disk[Name(m)] && |f.inode.bytes| != m.size
      requires f.faults == 0
      modifies `disk, `calls, f, f.inode, storage
      ensures Valid()
      ensures r.Ok? ==> r.value == f && f.pos == 0 && f.inode.bytes == Content(w, m)
      ensures disk == if r.Err? && r.error.DownloadFailed? then old(disk) - {Name(m)} else old(disk)
      ensures calls == old(calls) + log.calls && log.fileFaults == f.faults
      ensures Indexed(m.blocks, log.attempts) && storage.log == old(storage.log) + LogOf(m.blocks, log.attempts)
      ensures r.Ok? || r.error.DownloadFailed? || r.error.SyncFailed? || r.error.SeekFailed?
      ensures [SysCall(Stat, true)] + log.calls == CallsFor(false, ErrorOf(r))
      ensures ServedAs(codec, m, false, ErrorOf(r), log)
    {
      var failed;
      ghost var attempts;
      failed, attempts := Fill(f, m);
      if failed.Some? {
        return Err(DownloadFailed(failed.value)), CallLog([], [], f.faults, attempts);
      }
      r, log := Finish(f, attempts);
    }

    // What follows a download that succeeded.
    method Finish(f: File, ghost attempts: seq<Attempt>) returns (r: Result<File, CacheError>, ghost log: CallLog)
      modifies `calls, f`pos, f`faults
      ensures r.Ok? ==> r.value == f && f.pos == 0
      ensures calls == old(calls) + log.calls && log.fileFaults == f.faults && log.attempts == attempts
      ensures match r
              case Ok(_) => log.calls == [SysCall(Sync, true)] && f.faults == old(f.faults)
              case Err(SyncFailed) => log.calls == [SysCall(Sync, false)]
              case Err(error) => error == SeekFailed && log.calls == [SysCall(Sync, true)] && f.faults > old(f.faults)
    {
      var synced := Call(Sync);
      if !synced {
        return Err(SyncFailed), CallLog([], [SysCall(Sync, false)], f.faults, attempts);
      }
      var ok := f.Seek(0);
      return if ok then Ok(f) else Err(SeekFailed), CallLog([], [SysCall(Sync, true)], f.faults, attempts);
    }

    twostate lemma OneFileChanged(m: FileMeta)
      requires old(Valid()) && MetaOk(w, m) && disk == old(disk) && dirs == old(dirs)
      requires forall p :: p in disk && p != Name(m) ==> unchanged(disk[p])
      requires Right(m)
      ensures Valid()
    {
      forall n | MetaOk(w, n) ensures Right(n) {
        assert old(Right(n));
        if Name(n) == Name(m) {
          SamePathSameContent(w, base, m, n);
        }
      }
    }

    twostate lemma OneFileRemoved(name: string)
      requires old(Valid()) && dirs == old(dirs) && disk == old(disk) - {name}
      requires forall p :: p in disk ==> unchanged(disk[p])
      ensures Valid()
    {
      forall n | MetaOk(w, n) ensures Right(n) {
        assert old(Right(n));
      }
    }

    // Downloads into the file; on failure the file is closed and removed.
    method Fill(f: File, m: FileMeta) returns (failed: Option<DownloadError>, ghost attempts: seq<Attempt>)
      requires Valid() && MetaOk(w, m) && Name(m) in disk && f.inode == disk[Name(m)] && |f.inode.bytes| != m.size
      requires f.faults == 0
      modifies `disk, f, f.inode, storage
      ensures Valid()
      ensures disk == if failed.None? then old(disk) else old(disk) - {Name(m)}
      ensures failed.None? ==> f.inode.bytes == Content(w, m)
      ensures Indexed(m.blocks, attempts) && storage.log == old(storage.log) + LogOf(m.blocks, attempts)
      ensures DownloadIsRecorded(codec, m, failed, f.faults, attempts) && (failed.None? ==> f.faults == 0)
    {
      label start:
      ghost var before := f.inode.bytes;
      assert Right(m);
      failed, attempts := Fetch(f, m);
      if failed.Some? {
        disk := map p | p in disk && p != Name(m) :: disk[p];
        assert disk == old(disk) - {Name(m)};
        OneFileRemoved@start(Name(m));
      } else {
        RanWithMore(SetupOf(w, m), Answers(storage.may, codec, m.blocks), w.data(m), before, f.inode.bytes);
        ServedRightIffNotLonger(w, m, before, f.inode.bytes);
        OneFileChanged@start(m);
      }
    }

    // The default number of workers is asked for.
    method Fetch(f: File, m: FileMeta) returns (failed: Option<DownloadError>, ghost attempts: seq<Attempt>)
      requires |m.blocks| < 0x2000_0000 && m.blockSize <= 0xFFFF * 4096 && f.faults == 0
      modifies f, f.inode, storage
      ensures failed.None? ==>
                var u := Setup(m.blocks, m.blockSize, codec.hash);
                && SetupOk(u)
                && Ran(u, 0, Answers(storage.may, codec, m.blocks), old(f.inode.bytes), f.inode.bytes, Success)
      ensures failed.Some? && !failed.value.Failed? ==> f.inode.bytes == old(f.inode.bytes)
      ensures Indexed(m.blocks, attempts) && storage.log == old(storage.log) + LogOf(m.blocks, attempts)
      ensures DownloadIsRecorded(codec, m, failed, f.faults, attempts) && (failed.None? ==> f.faults == 0)
    {
      var downloader := new Downloader(storage, codec, m.blocks, m.blockSize, 0);
      var r;
      r, attempts := downloader.Download(f);
      failed := if r.Ok? then None else Some(r.error);
    }
  }

  // The stores answer nothing for a file of this world but its data.
  ghost predicate StoresAreOf(w: World, may: (Bytes, Bytes) -> bool, codec: Codec) {
    match w
    case World(_, _, _, _, metas, data) => forall m :: m in metas ==> Answers(may, codec, m.blocks) <= data(m)
  }

  lemma RanWithMore(u: Setup, data: iset<Bytes>, more: iset<Bytes>, before: Bytes, after: Bytes)
    requires Ran(u, 0, data, before, after, Success) && data <= more
    ensures Ran(u, 0, more, before, after, Success)
  {
    var steps, s :| RanBy(u, 0, data, before, after, Success, steps, s);
    assert RanBy(u, 0, more, before, after, Success, steps, s);
  }
}
