/** The pool of file descriptors handed to a child process, and the loop that names virtual files by them. */
module FdPool {
  import opened Wrappers

  /** The first descriptor after stdin, stdout and stderr. */
  const FIRST_FD := 3
  const MAX_FILE_DESCRIPTORS := 10

  /** The pool as a value: free descriptors in channel order, those in use, the next new one, the limit. */
  datatype Pool = Pool(free: seq<int>, inUse: set<int>, nextFd: int, max: nat)

  function EmptyPool(max: nat): Pool { Pool([], {}, FIRST_FD, max) }

  function Got(p: Pool): (Pool, Option<int>) {
    if |p.inUse| >= p.max then (p, None)
    else if p.free != [] then (p.(free := p.free[1..], inUse := p.inUse + {p.free[0]}), Some(p.free[0]))
    else (p.(inUse := p.inUse + {p.nextFd}, nextFd := p.nextFd + 1), Some(p.nextFd))
  }

  function Released(p: Pool, fd: int): Pool {
    if fd !in p.inUse then p
    else p.(inUse := p.inUse - {fd}, free := if |p.free| < p.max then p.free + [fd] else p.free)
  }

  function FreeSet(p: Pool): set<int> {
    set i | 0 <= i < |p.free| :: p.free[i]
  }

  /** The descriptors issued so far when `next` is the next new one. */
  function Issued(next: int): (fds: set<int>)
    ensures forall fd :: fd in fds <==> FIRST_FD <= fd < next
    ensures FIRST_FD <= next ==> |fds| == next - FIRST_FD
    decreases next
  {
    if next <= FIRST_FD then {} else Issued(next - 1) + {next - 1}
  }

  /** In-use and free descriptors are disjoint, free of duplicates, and together all those ever issued. */
  ghost predicate Sound(p: Pool) {
    match p
    case Pool(free, inUse, nextFd, max) =>
      && FIRST_FD <= nextFd <= FIRST_FD + max
      && (forall i, j :: 0 <= i < j < |free| ==> free[i] != free[j])
      && FreeSet(p) !! inUse
      && FreeSet(p) + inUse == Issued(nextFd)
  }

  lemma {:induction false} FreeCount(p: Pool)
    requires forall i, j :: 0 <= i < j < |p.free| ==> p.free[i] != p.free[j]
    ensures |FreeSet(p)| == |p.free|
    decreases |p.free|
  {
    if p.free != [] {
      var n := |p.free| - 1;
      var q := p.(free := p.free[..n]);
      FreeCount(q);
      FreeSnoc(q, p.free[n]);
      assert p.free == q.free + [p.free[n]];
    }
  }

  lemma FreeSnoc(p: Pool, fd: int)
    ensures FreeSet(p.(free := p.free + [fd])) == FreeSet(p) + {fd}
  {
    var q := p.(free := p.free + [fd]);
    assert q.free[|p.free|] == fd;
    forall i | 0 <= i < |p.free| ensures p.free[i] in FreeSet(q) { assert q.free[i] == p.free[i]; }
  }

  lemma FreeTail(p: Pool)
    requires p.free != [] && forall i, j :: 0 <= i < j < |p.free| ==> p.free[i] != p.free[j]
    ensures FreeSet(p.(free := p.free[1..])) == FreeSet(p) - {p.free[0]}
  {
    var q := p.(free := p.free[1..]);
    forall i | 0 < i < |p.free| ensures p.free[i] in FreeSet(q) { assert q.free[i - 1] == p.free[i]; }
    forall i | 0 <= i < |q.free| ensures q.free[i] in FreeSet(p) - {p.free[0]} { assert p.free[i + 1] == q.free[i]; }
  }

  /** A descriptor is either free or in use: counting them counts the issued ones. */
  lemma Counts(p: Pool)
    requires Sound(p)
    ensures |p.free| + |p.inUse| == p.nextFd - FIRST_FD
  {
    FreeCount(p);
    assert |FreeSet(p) + p.inUse| == |FreeSet(p)| + |p.inUse|;
  }

  lemma ReuseKeepsSound(p: Pool)
    requires Sound(p) && p.free != [] && |p.inUse| < p.max
    ensures Sound(Got(p).0) && p.free[0] !in p.inUse
  {
    var q := Got(p).0;
    assert p.free[0] in FreeSet(p);
    FreeTail(p);
    assert FreeSet(q) == FreeSet(p) - {p.free[0]};
    assert FreeSet(q) + q.inUse == FreeSet(p) + p.inUse;
  }

  lemma GrowKeepsSound(p: Pool)
    requires Sound(p) && p.free == [] && |p.inUse| < p.max
    ensures Sound(Got(p).0) && p.nextFd !in p.inUse
  {
    Counts(p);
    var q := Got(p).0;
    assert FreeSet(p) == {} && FreeSet(q) == {};
    IssuedSnoc(p.nextFd);
    assert FreeSet(q) + q.inUse == Issued(q.nextFd);
  }

  lemma IssuedSnoc(next: int)
    requires FIRST_FD <= next
    ensures Issued(next + 1) == Issued(next) + {next}
  {
  }

  /** Getting fails exactly at the limit; otherwise the descriptor was not in use and the pool stays sound. */
  lemma GetKeepsSound(p: Pool)
    requires Sound(p)
    ensures Sound(Got(p).0)
    ensures Got(p).1.None? <==> |p.inUse| >= p.max
    ensures Got(p).1.Some? ==> 3 <= Got(p).1.value < 3 + p.max
    ensures Got(p).1.Some? ==> Got(p).1.value !in p.inUse && Got(p).0.inUse == p.inUse + {Got(p).1.value}
  {
    if |p.inUse| < p.max {
      if p.free != [] { ReuseKeepsSound(p); } else { GrowKeepsSound(p); }
    }
  }

  /** A descriptor in use leaves room for itself in the channel. */
  lemma RoomToRelease(p: Pool, fd: int)
    requires Sound(p) && fd in p.inUse
    ensures |p.free| < p.max
  {
    Counts(p);
    assert p.inUse == (p.inUse - {fd}) + {fd};
  }

  lemma FreedKeepsSound(p: Pool, fd: int)
    requires Sound(p) && fd in p.inUse
    ensures Sound(p.(inUse := p.inUse - {fd}, free := p.free + [fd]))
  {
    var q := p.(inUse := p.inUse - {fd}, free := p.free + [fd]);
    FreeSnoc(p, fd);
    assert FreeSet(q) == FreeSet(p) + {fd};
    assert FreeSet(q) + q.inUse == FreeSet(p) + p.inUse;
    forall i | 0 <= i < |p.free| ensures p.free[i] != fd { assert p.free[i] in FreeSet(p); }
  }

  /** A released descriptor always fits in the channel: the discard branch is never taken. */
  lemma ReleaseKeepsSound(p: Pool, fd: int)
    requires Sound(p)
    ensures Sound(Released(p, fd))
    ensures fd in p.inUse ==> Released(p, fd) == p.(inUse := p.inUse - {fd}, free := p.free + [fd])
  {
    if fd in p.inUse {
      RoomToRelease(p, fd);
      FreedKeepsSound(p, fd);
    }
  }

  datatype Op = Get | Release(fd: int)

  function RunOps(p: Pool, ops: seq<Op>): Pool {
    if ops == [] then p else
      var q := RunOps(p, ops[..|ops| - 1]);
      match ops[|ops| - 1]
      case Get => Got(q).0
      case Release(fd) => Released(q, fd)
  }

  /** Over any sequence of gets and releases, also of descriptors never issued, the pool stays sound. */
  lemma {:induction false} OpsKeepSound(max: nat, ops: seq<Op>)
    ensures Sound(RunOps(EmptyPool(max), ops)) && RunOps(EmptyPool(max), ops).max == max
  {
    if ops == [] {
      assert Issued(FIRST_FD) == {};
    } else {
      OpsKeepSound(max, ops[..|ops| - 1]);
      var q := RunOps(EmptyPool(max), ops[..|ops| - 1]);
      match ops[|ops| - 1]
      case Get => GetKeepsSound(q);
      case Release(fd) => ReleaseKeepsSound(q, fd);
    }
  }

  // ------------------------------------------------------ first freed, first reused

  function ReleaseAll(p: Pool, fds: seq<int>): Pool
    decreases |fds|
  {
    if fds == [] then p else ReleaseAll(Released(p, fds[0]), fds[1..])
  }

  /** The descriptors of n gets in turn. */
  function GetMany(p: Pool, n: nat): seq<int>
    decreases n
  {
    if n == 0 then [] else
      match Got(p)
      case (q, Some(fd)) => [fd] + GetMany(q, n - 1)
      case (_, None) => []
  }

  /** Different descriptors that are in use. */
  predicate AllInUse(p: Pool, fds: seq<int>) {
    match p
    case Pool(_, inUse, _, _) =>
      && (forall i :: 0 <= i < |fds| ==> fds[i] in inUse)
      && (forall i, j :: 0 <= i < j < |fds| ==> fds[i] != fds[j])
  }

  lemma OthersInUse(p: Pool, fds: seq<int>)
    requires fds != [] && AllInUse(p, fds) && |p.free| < p.max
    ensures var q := Released(p, fds[0]);
            AllInUse(q, fds[1..]) && q.free == p.free + [fds[0]] && q.max == p.max && |q.inUse| == |p.inUse| - 1
  {
    assert p.inUse == (p.inUse - {fds[0]}) + {fds[0]};
  }

  lemma {:induction false} ReleasesQueueUp(p: Pool, fds: seq<int>)
    requires AllInUse(p, fds) && |p.free| + |fds| <= p.max
    ensures var q := ReleaseAll(p, fds); q.free == p.free + fds && q.max == p.max && |q.inUse| == |p.inUse| - |fds|
    decreases |fds|
  {
    if fds != [] {
      OthersInUse(p, fds);
      ReleasesQueueUp(Released(p, fds[0]), fds[1..]);
      assert p.free + [fds[0]] + fds[1..] == p.free + fds;
    }
  }

  /** There is room for all descriptors in use. */
  lemma RoomForAll(p: Pool, fds: seq<int>)
    requires Sound(p) && AllInUse(p, fds)
    ensures |p.free| + |p.inUse| <= p.max && |fds| <= |p.inUse|
  {
    Counts(p);
    var q := p.(free := fds);
    FreeCount(q);
    assert p.inUse == FreeSet(q) + (p.inUse - FreeSet(q));
  }

  lemma {:induction false} GetsInOrder(p: Pool, n: nat)
    requires n <= |p.free| && |p.inUse| + n <= p.max
    ensures GetMany(p, n) == p.free[..n]
    decreases n
  {
    if n > 0 {
      GetsInOrder(Got(p).0, n - 1);
    }
  }

  /** Descriptors that are released one by one are handed out again in that order, after those that were free before. */
  lemma FirstFreedFirst(p: Pool, fds: seq<int>)
    requires Sound(p) && AllInUse(p, fds)
    ensures GetMany(ReleaseAll(p, fds), |p.free| + |fds|) == p.free + fds
  {
    RoomForAll(p, fds);
    ReleasesQueueUp(p, fds);
    var q := ReleaseAll(p, fds);
    GetsInOrder(q, |q.free|);
    assert q.free[..|q.free|] == q.free;
  }

  class FdPool {
    var fds: seq<int>
    var inUse: set<int>
    var nextFd: int
    const maxFds: nat

    ghost function View(): Pool
      reads this
    {
      Pool(fds, inUse, nextFd, maxFds)
    }

    constructor (max: nat)
      ensures View() == EmptyPool(max)
    {
      fds, inUse, nextFd, maxFds := [], {}, FIRST_FD, max;
    }

    method Get() returns (r: Option<int>)
      modifies this
      ensures (View(), r) == Got(old(View()))
    {
      if |inUse| >= maxFds {
        return None;
      }
      var fd;
      if fds != [] {
        fd, fds := fds[0], fds[1..];
      } else {
        fd, nextFd := nextFd, nextFd + 1;
      }
      inUse := inUse + {fd};
      r := Some(fd);
    }

    method Release(fd: int)
      modifies this
      ensures View() == Released(old(View()), fd)
    {
      if fd in inUse {
        inUse := inUse - {fd};
        if |fds| < maxFds {
          fds := fds + [fd];
        }
      }
    }
  }

  /** The pool after k gets from an empty one, none released. */
  function Taken(k: nat, max: nat): Pool {
    Pool([], Issued(FIRST_FD + k), FIRST_FD + k, max)
  }

  lemma TakeOne(k: nat, max: nat)
    ensures Got(Taken(k, max)) == if k < max then (Taken(k + 1, max), Some(FIRST_FD + k)) else (Taken(k, max), None)
  {
    assert Issued(FIRST_FD + k + 1) == Issued(FIRST_FD + k) + {FIRST_FD + k};
  }

  method TakeNext(pool: FdPool, ghost k: nat) returns (r: Option<int>)
    requires pool.View() == Taken(k, MAX_FILE_DESCRIPTORS)
    modifies pool
    ensures r == if k < MAX_FILE_DESCRIPTORS then Some(FIRST_FD + k) else None
    ensures pool.View() == Taken(if k < MAX_FILE_DESCRIPTORS then k + 1 else k, MAX_FILE_DESCRIPTORS)
  {
    TakeOne(k, MAX_FILE_DESCRIPTORS);
    r := pool.Get();
  }

  function Descriptors(n: nat): seq<int> {
    if n == 0 then [] else Descriptors(n - 1) + [FIRST_FD + n - 1]
  }

  /** Entry k of the extra files is the child's descriptor k + 3. */
  lemma {:induction false} DescriptorsAt(n: nat, k: nat)
    ensures |Descriptors(n)| == n && (k < n ==> Descriptors(n)[k] == 3 + k)
  {
    if n > 0 { DescriptorsAt(n - 1, k); }
  }

  /** What a child has open: the three standard streams and then the extra files in order. */
  datatype Open = Stdin | Stdout | Stderr | Extra(index: nat)

  function ChildTable(extras: nat): seq<Open> {
    [Stdin, Stdout, Stderr] + seq(extras, k requires 0 <= k => Extra(k))
  }

  /** The names with the descriptors of their files; a repeated name keeps its last one. */
  function FileMap(names: seq<string>): map<string, int> {
    if names == [] then map[] else FileMap(names[..|names| - 1])[names[|names| - 1] := FIRST_FD + |names| - 1]
  }

  /** A name leads to its last file. */
  lemma {:induction false} FileMapMeans(names: seq<string>, k: nat)
    requires k < |names|
    ensures names[k] in FileMap(names) && FileMap(names)[names[k]] >= 3 + k
    ensures names[k] !in names[k + 1..] ==> FileMap(names)[names[k]] == 3 + k
  {
    var n := |names| - 1;
    if k < n {
      FileMapMeans(names[..n], k);
      assert names[k + 1..] == names[..n][k + 1..] + [names[n]];
    }
  }

  lemma {:induction false} FileMapNames(names: seq<string>, name: string) returns (k: nat)
    requires name in FileMap(names)
    ensures LastAt(names, name, k)
  {
    var n := |names| - 1;
    if names[n] == name {
      k := n;
    } else {
      k := FileMapNames(names[..n], name);
      assert names[k + 1..] == names[..n][k + 1..] + [names[n]];
    }
  }

  predicate LastAt(names: seq<string>, name: string, k: int) {
    0 <= k < |names| && names[k] == name && name !in names[k + 1..]
  }

  /** Every file is the child's descriptor for it, and a name's descriptor is that of its last file. */
  ghost predicate ChildSees(names: seq<string>, fileMap: Option<map<string, int>>, extra: seq<int>) {
    match fileMap
    case None => true
    case Some(files) =>
      && |extra| == |names|
      && (forall k :: 0 <= k < |names| ==> extra[k] == 3 + k && ChildTable(|names|)[extra[k]] == Extra(k))
      && (forall k :: 0 <= k < |names| ==> names[k] in files)
      && (forall name, k :: name in files && LastAt(names, name, k) ==> files[name] == 3 + k)
      && (forall name :: name in files ==> exists k :: LastAt(names, name, k))
  }

  lemma ExtrasAt(n: nat)
    ensures |Descriptors(n)| == n
    ensures forall k :: 0 <= k < n ==> Descriptors(n)[k] == 3 + k && ChildTable(n)[3 + k] == Extra(k)
  {
    DescriptorsAt(n, 0);
    forall k | 0 <= k < n ensures Descriptors(n)[k] == 3 + k { DescriptorsAt(n, k); }
  }

  lemma NextFile(names: seq<string>, i: nat)
    requires i < |names|
    ensures FileMap(names[..i + 1]) == FileMap(names[..i])[names[i] := FIRST_FD + i]
    ensures Descriptors(i + 1) == Descriptors(i) + [FIRST_FD + i]
  {
    assert names[..i + 1][..i] == names[..i];
  }

  lemma ChildSeesFiles(names: seq<string>)
    ensures names[..|names|] == names
    ensures ChildSees(names, Some(FileMap(names)), Descriptors(|names|))
  {
    ExtrasAt(|names|);
    forall k | 0 <= k < |names| ensures names[k] in FileMap(names) { FileMapMeans(names, k); }
    forall name, k | name in FileMap(names) && LastAt(names, name, k) ensures FileMap(names)[name] == 3 + k {
      FileMapMeans(names, k);
    }
    forall name | name in FileMap(names) ensures exists k :: LastAt(names, name, k) {
      var k := FileMapNames(names, name);
    }
  }

  /**
   The assignment loop. It succeeds exactly when there are at most ten files; then the k-th file holds
   descriptor 3 + k, behind the standard streams, which is where the child finds it.
   */
  method AssignDescriptors(names: seq<string>) returns (fileMap: Option<map<string, int>>, extra: seq<int>)
    ensures fileMap.Some? <==> |names| <= 10
    ensures ChildSees(names, fileMap, extra)
  {
    var pool := new FdPool(MAX_FILE_DESCRIPTORS);
    var files: map<string, int> := map[];
    extra := [];
    assert pool.View() == Taken(0, MAX_FILE_DESCRIPTORS);
    for i := 0 to |names|
      invariant fresh(pool)
      invariant i <= MAX_FILE_DESCRIPTORS && pool.View() == Taken(i, MAX_FILE_DESCRIPTORS)
      invariant extra == Descriptors(i)
      invariant files == FileMap(names[..i])
    {
      var fd := TakeNext(pool, i);
      if fd.None? {
        return None, extra;
      }
      NextFile(names, i);
      extra := extra + [fd.value];
      files := files[names[i] := fd.value];
    }
    ChildSeesFiles(names);
    fileMap := Some(files);
  }
}
