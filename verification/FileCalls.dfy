/**
 * What each call of the in-memory file system means, stated on the inode and descriptor maps alone:
 * every outcome of it, everything it changes and everything it leaves.
 */
module FileCalls {
  import opened Arithmetic
  import opened Wrappers
  import opened Paths
  import opened Tree
  import opened MemFs
  import D = Descriptors

  // ------------------------------------------------------------- reading

  // The descriptor is open on a regular file that is still there.
  predicate Readable(fs: Fs, fd: nat) {
    fd in fs.fds && fs.fds[fd].ino in fs.inodes && fs.inodes[fs.fds[fd].ino].kind == File
  }

  function DataOf(fs: Fs, fd: nat): seq<byte>
    requires Readable(fs, fd)
  {
    fs.inodes[fs.fds[fd].ino].data
  }

  // The state with one descriptor moved.
  function AtOffset(fs: Fs, fd: nat, offset: nat): Fs
    requires fd in fs.fds
  {
    fs.(fds := fs.fds[fd := Descriptor(fs.fds[fd].fd, fs.fds[fd].ino, offset, fs.fds[fd].flags)])
  }

  /**
   * A read of n bytes delivers as many as n and what is left of the file allow, byte by byte from the
   * offset on, and moves the offset behind them; past the end it delivers nothing.
   */
  lemma ReadDelivers(fs: Fs, fd: nat, n: nat)
    requires Readable(fs, fd)
    ensures
      var o, d := fs.fds[fd].offset, DataOf(fs, fd);
      var count: nat := if o >= |d| then 0 else if n <= |d| - o then n else |d| - o;
      var (after, r) := D.Read(fs, fd, n);
      && r.Ok? && |r.value| == count
      && (forall i :: 0 <= i < count ==> r.value[i] == d[o + i])
      && after == AtOffset(fs, fd, o + count)
  {
  }

  // Why a descriptor can be neither read nor written.
  predicate Refuses(fs: Fs, fd: nat, e: FsError) {
    if fd !in fs.fds then e == InvalidFileDescriptor
    else if fs.fds[fd].ino !in fs.inodes then e == FileNotFound
    else fs.inodes[fs.fds[fd].ino].kind != File && e == IsADirectory
  }

  lemma ReadRefused(fs: Fs, fd: nat, n: nat)
    requires !Readable(fs, fd)
    ensures D.Read(fs, fd, n).0 == fs && D.Read(fs, fd, n).1.Err? && Refuses(fs, fd, D.Read(fs, fd, n).1.error)
  {
  }

  // ------------------------------------------------------------- reading until the end

  // One read after the other, with buffers of these sizes.
  function ReadMany(fs: Fs, fd: nat, sizes: seq<nat>): (Fs, seq<byte>)
    decreases |sizes|
  {
    if sizes == [] then (fs, [])
    else
      match D.Read(fs, fd, sizes[0])
      case (after, Err(_)) => (after, [])
      case (after, Ok(got)) =>
        var (last, rest) := ReadMany(after, fd, sizes[1..]);
        (last, got + rest)
  }

  function Sum(sizes: seq<nat>): nat {
    if sizes == [] then 0 else sizes[0] + Sum(sizes[1..])
  }

  /** Reads of any sizes deliver one contiguous piece of the file, as long as the sizes add up to. */
  lemma {:induction false} ReadManyDelivers(fs: Fs, fd: nat, sizes: seq<nat>)
    requires Readable(fs, fd)
    ensures
      var o, d := fs.fds[fd].offset, DataOf(fs, fd);
      var count := if o >= |d| then 0 else Min(Sum(sizes), |d| - o);
      var (after, got) := ReadMany(fs, fd, sizes);
      && |got| == count && (forall i :: 0 <= i < count ==> got[i] == d[o + i])
      && after == AtOffset(fs, fd, o + count)
    decreases |sizes|
  {
    hide D.Read;
    if sizes != [] {
      ReadDelivers(fs, fd, sizes[0]);
      ReadManyDelivers(D.Read(fs, fd, sizes[0]).0, fd, sizes[1..]);
    }
  }

  /**
   * Reading with non-empty buffers until a read delivers nothing: together the reads delivered the file
   * from the offset to its end, and no later than the byte count of the file one of them is empty.
   */
  lemma {:induction false} ReadToEnd(fs: Fs, fd: nat, sizes: seq<nat>, last: nat)
    requires Readable(fs, fd) && last > 0 && forall i :: 0 <= i < |sizes| ==> sizes[i] > 0
    ensures
      var o, d := fs.fds[fd].offset, DataOf(fs, fd);
      var (after, got) := ReadMany(fs, fd, sizes);
      && (D.Read(after, fd, last).1 == Ok([]) ==> got == if o >= |d| then [] else d[o..])
      && (|sizes| >= |d| ==> D.Read(after, fd, last).1 == Ok([]))
  {
    hide D.Read, ReadMany;
    ReadManyDelivers(fs, fd, sizes);
    SumGrows(sizes);
    ReadDelivers(ReadMany(fs, fd, sizes).0, fd, last);
  }

  lemma {:induction false} SumGrows(sizes: seq<nat>)
    requires forall i :: 0 <= i < |sizes| ==> sizes[i] > 0
    ensures Sum(sizes) >= |sizes|
    decreases |sizes|
  {
    if sizes != [] { SumGrows(sizes[1..]); }
  }

  // ------------------------------------------------------------- writing, seeking, closing, opening

  /**
   * A write that fits a 64-bit length puts its bytes at the offset, keeps every other byte, fills a gap
   * with zeros, and moves the offset behind what it wrote; no other inode and no other descriptor changes.
   */
  lemma WriteMeans(fs: Fs, fd: nat, bytes: seq<byte>)
    requires Readable(fs, fd)
    ensures
      var o, d, i := fs.fds[fd].offset, DataOf(fs, fd), fs.fds[fd].ino;
      var (after, r) := D.Write(fs, fd, bytes);
      if o + |bytes| >= WORD then r == Err(InvalidInput) && after == fs
      else
        && r == Ok(|bytes|) && i in after.inodes
        && var e := after.inodes[i].data;
        && |e| == (if o + |bytes| > |d| then o + |bytes| else |d|)
        && (forall k :: 0 <= k < |e| ==>
            e[k] == if o <= k < o + |bytes| then bytes[k - o] else if k < |d| then d[k] else 0)
        && after == AtOffset(fs, fd, o + |bytes|).(inodes := fs.inodes[i := fs.inodes[i].(data := e, size := |e|)])
  {
    hide D.WriteAt;
    var o, d := fs.fds[fd].offset, DataOf(fs, fd);
    var e := D.WriteAt(d, o, bytes);
    forall k | o <= k < o + |bytes| ensures e[k] == bytes[k - o] {
      assert e[o..o + |bytes|][k - o] == e[k];
    }
  }

  lemma WriteRefused(fs: Fs, fd: nat, bytes: seq<byte>)
    requires !Readable(fs, fd)
    ensures D.Write(fs, fd, bytes).0 == fs
    ensures D.Write(fs, fd, bytes).1.Err? && Refuses(fs, fd, D.Write(fs, fd, bytes).1.error)
  {
  }

  /** Seeking moves an open descriptor anywhere and changes nothing else. */
  lemma SeekMeans(fs: Fs, fd: nat, pos: nat)
    ensures D.Seek(fs, fd, pos)
      == if fd in fs.fds then (AtOffset(fs, fd, pos), Ok(())) else (fs, Err(InvalidFileDescriptor))
  {
  }

  /** A closed descriptor refuses everything, and the others are as they were. */
  lemma CloseMeans(fs: Fs, fd: nat, n: nat, bytes: seq<byte>)
    ensures
      var (after, r) := D.Close(fs, fd);
      && r == (if fd in fs.fds then Ok(()) else Err(InvalidFileDescriptor))
      && after.inodes == fs.inodes && after.nextIno == fs.nextIno && after.nextFd == fs.nextFd
      && (forall other :: other != fd ==> (other in after.fds <==> other in fs.fds))
      && (forall other :: other != fd && other in fs.fds ==> after.fds[other] == fs.fds[other])
      && D.Read(after, fd, n) == (after, Err(InvalidFileDescriptor))
      && D.Write(after, fd, bytes) == (after, Err(InvalidFileDescriptor))
      && D.Close(after, fd) == (after, Err(InvalidFileDescriptor))
  {
  }

  /** Opening succeeds exactly for a path that resolves: a descriptor on its inode, at the start. */
  lemma OpenMeans(fs: Fs, path: string, flags: nat)
    ensures
      var (after, r) := D.Open(fs, path, flags);
      match Lookup(fs.inodes, path)
      case None => after == fs && r == None
      case Some(i) =>
        && r == Some(Descriptor(fs.nextFd, i, 0, flags))
        && after.inodes == fs.inodes && after.nextIno == fs.nextIno
        && (fs.nextFd < U32 ==> after.nextFd == if fs.nextFd + 1 == U32 then 0 else fs.nextFd + 1)
        && fs.nextFd in after.fds && after.fds[fs.nextFd] == r.value
        && (forall fd :: fd != fs.nextFd ==> (fd in after.fds <==> fd in fs.fds))
        && (forall fd :: fd != fs.nextFd && fd in fs.fds ==> after.fds[fd] == fs.fds[fd])
  {
    hide Lookup;
  }

  // ------------------------------------------------------------- creating and unlinking

  // The names before the last lead to a directory.
  ghost predicate HasParent(fs: Fs, path: string) {
    var cs := Components(path);
    && cs != []
    && var dir := Follow(fs.inodes, cs[..|cs| - 1], ROOT);
    dir.Some? && dir.value in fs.inodes && fs.inodes[dir.value].kind == Directory
  }

  /** Creation succeeds exactly where nothing resolves, below a directory, for any path whatever. */
  lemma CreateOutcome(fs: Fs, path: string, kind: Kind)
    requires D.Inv(fs)
    ensures Create(fs, path, kind).1.Some? <==> Lookup(fs.inodes, path).None? && HasParent(fs, path)
  {
    hide Lookup, LookupParent, TreeInv, Components, Follow;
    ParentFoundIff(fs.inodes, fs.nextIno, path);
    if LookupParent(fs.inodes, path).Some? {
      var front := ParentComponents(fs.inodes, fs.nextIno, path);
      assert Components(path)[..|Components(path)| - 1] == front;
    }
  }

  /** What it makes: one empty inode under the last name, listed last in its directory; nothing else changes. */
  lemma CreateMakes(fs: Fs, path: string, kind: Kind)
    requires D.Inv(fs) && Create(fs, path, kind).1.Some?
    ensures
      var made, n := Create(fs, path, kind).0, fs.nextIno;
      var cs := Components(path);
      && cs != [] && Follow(fs.inodes, cs[..|cs| - 1], ROOT).Some?
      && var dir := Follow(fs.inodes, cs[..|cs| - 1], ROOT).value;
      && dir in fs.inodes && n !in fs.inodes
      && made.inodes == fs.inodes
        [n := Inode(cs[|cs| - 1], kind, [], [], dir, None, 0)]
        [dir := fs.inodes[dir].(children := fs.inodes[dir].children + [n])]
      && made.nextIno == n + 1 && made.fds == fs.fds && made.nextFd == fs.nextFd
  {
    FreshNumber(fs);
    hide Lookup, LookupParent, TreeInv, Components, Follow;
    CreateCanInsert(fs, path, kind);
    var front := ParentComponents(fs.inodes, fs.nextIno, path);
    assert Components(path)[..|Components(path)| - 1] == front;
  }

  lemma FreshNumber(fs: Fs)
    requires D.Inv(fs)
    ensures fs.nextIno !in fs.inodes
  {
  }

  /** `mkdir`: "/" is there already, a path without a parent is invalid, anything else is creation. */
  lemma MkdirOutcome(fs: Fs, path: string)
    requires D.Inv(fs)
    ensures
      var (after, r) := Mkdir(fs, path);
      var cs := Components(path);
      && after == Create(fs, path, Directory).0
      && r == (if path == "/" then Ok(())
               else if cs == [] || Follow(fs.inodes, cs[..|cs| - 1], ROOT).None? then Err(InvalidPath)
               else if Lookup(fs.inodes, path).None? && HasParent(fs, path) then Ok(())
               else Err(PermissionDenied))
  {
    hide Lookup, LookupParent, TreeInv, Components, Follow, Create;
    CreateOutcome(fs, path, Directory);
    CreateFails(fs, path, Directory);
    ParentFoundIff(fs.inodes, fs.nextIno, path);
    if path == "/" { RootResolves(fs.inodes); }
  }

  lemma RootResolves(t: Inodes)
    ensures Lookup(t, "/") == Some(ROOT)
  {
    ComponentsOne("");
    assert TrimStart("/") == "";
  }

  lemma CreateFails(fs: Fs, path: string, kind: Kind)
    ensures Create(fs, path, kind).1.None? ==> Create(fs, path, kind).0 == fs
  {
    hide Lookup, LookupParent;
  }

  /**
   * `unlink` of any path: it must resolve and end in a plain name, and what it leads to must not be a
   * directory with entries.
   */
  lemma UnlinkOutcome(fs: Fs, path: string)
    requires D.Inv(fs)
    ensures
      var cs, found := Components(path), Lookup(fs.inodes, path);
      Unlink(fs, path).1 ==
        if cs == [] || cs[|cs| - 1] == "." || cs[|cs| - 1] == ".." || found.None? then Err(FileNotFound)
        else if found.value in fs.inodes && fs.inodes[found.value].kind == Directory
          && fs.inodes[found.value].children != [] then Err(DirectoryNotEmpty)
        else Ok(())
  {
    hide Lookup, TreeInv, Components, Follow, FindNamed, Without;
    var t, n := fs.inodes, fs.nextIno;
    ParentFoundIff(t, n, path);
    LookupIsFollow(t, n, path);
    var cs := Components(path);
    if LookupParent(t, path).Some? {
      var (dir, name) := LookupParent(t, path).value;
      var front := ParentComponents(t, n, path);
      ParentStep(t, n, path);
      DotsAreNoChildren(t, n, dir, name);
      ChildThere(t, n, dir, name);
    } else if cs != [] {
      FollowFront(t, cs);
    }
  }

  lemma {:induction false} FollowFront(t: Inodes, cs: seq<Name>)
    requires cs != [] && Follow(t, cs[..|cs| - 1], ROOT).None?
    ensures Follow(t, cs, ROOT).None?
  {
    hide Follow;
    assert cs == cs[..|cs| - 1] + [cs[|cs| - 1]];
    FollowAppend(t, cs[..|cs| - 1], [cs[|cs| - 1]], ROOT);
  }

  lemma DotsAreNoChildren(t: Inodes, bound: nat, dir: nat, name: Name)
    requires TreeInv(t, bound) && dir in t
    ensures name == "." || name == ".." ==> LookupChild(t, dir, name).None?
  {
    hide LookupChild, FindNamed, SiblingsDiffer, NoDuplicates;
    var r := LookupChild(t, dir, name);
    if r.Some? {
      LookupChildIff(t, bound, dir, r.value, name);
      assert NodeOk(t, r.value);
    }
  }

  lemma ChildThere(t: Inodes, bound: nat, dir: nat, name: Name)
    requires TreeInv(t, bound) && dir in t
    ensures LookupChild(t, dir, name).Some? ==> LookupChild(t, dir, name).value in t
  {
    hide LookupChild, TreeInv;
    var r := LookupChild(t, dir, name);
    if r.Some? { LookupChildIff(t, bound, dir, r.value, name); }
  }

  /** What it takes away: the one inode, and its number from its directory's list. */
  lemma UnlinkTakes(fs: Fs, path: string)
    requires D.Inv(fs) && Unlink(fs, path).1.Ok?
    ensures
      var cut := Unlink(fs, path).0;
      && Lookup(fs.inodes, path).Some?
      && var child := Lookup(fs.inodes, path).value;
      && child in fs.inodes && fs.inodes[child].parent in fs.inodes && child != fs.inodes[child].parent
      && var dir := fs.inodes[child].parent;
      && cut.inodes.Keys == fs.inodes.Keys - {child}
      && (forall i :: i in cut.inodes && i != dir ==> cut.inodes[i] == fs.inodes[i])
      && cut.inodes[dir] == fs.inodes[dir].(children := cut.inodes[dir].children)
      && (forall c :: c in cut.inodes[dir].children <==> c in fs.inodes[dir].children && c != child)
      && cut.nextIno == fs.nextIno && cut.fds == fs.fds && cut.nextFd == fs.nextFd
  {
    hide Lookup, LookupParent, LookupChild, Resolved, PathOf, SiblingsDiffer, Without;
    UnlinkCanRemove(fs, path);
    var (dir, name) := LookupParent(fs.inodes, path).value;
    var child := LookupChild(fs.inodes, dir, name).value;
    assert NodeOk(fs.inodes, child);
    WithoutMembers(fs.inodes[dir].children, child);
  }
}
