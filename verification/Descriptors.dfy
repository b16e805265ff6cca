/**
 * File descriptors over the in-memory file system, and whole runs of its operations: the tree
 * invariant, and what a descriptor can still reach after its file is unlinked.
 */
module Descriptors {
  import opened Arithmetic
  import opened Wrappers
  import opened Paths
  import opened Tree
  import opened MemFs

  // ------------------------------------------------------------- file contents

  function Zeros(n: nat): (z: seq<byte>)
    ensures |z| == n && forall i :: 0 <= i < n ==> z[i] == 0
  {
    seq(n, _ => 0)
  }

  // `resize` when the write ends past the data, then `copy_from_slice`.
  function WriteAt(data: seq<byte>, offset: nat, bytes: seq<byte>): (r: seq<byte>)
    ensures |r| == Max(|data|, offset + |bytes|)
    ensures r[offset..offset + |bytes|] == bytes
    ensures forall k :: 0 <= k < |r| && !(offset <= k < offset + |bytes|) ==>
      r[k] == if k < |data| then data[k] else 0
  {
    var end := offset + |bytes|;
    var wide := if end > |data| then data + Zeros(end - |data|) else data;
    wide[..offset] + bytes + wide[end..]
  }

  function ReadAt(data: seq<byte>, offset: nat, n: nat): seq<byte> {
    if offset >= |data| then [] else data[offset..Min(|data|, offset + n)]
  }

  // ------------------------------------------------------------- open, read, write, seek, close

  function Open(fs: Fs, path: string, flags: nat): (Fs, Option<Descriptor>) {
    match Lookup(fs.inodes, path)
    case None => (fs, None)
    case Some(ino) =>
      var desc := Descriptor(fs.nextFd, ino, 0, flags);
      (fs.(fds := fs.fds[fs.nextFd := desc], nextFd := (fs.nextFd + 1) % U32), Some(desc))
  }

  // Why a descriptor cannot be read or written.
  function Blocked(fs: Fs, fd: nat): Option<FsError> {
    if fd !in fs.fds then Some(InvalidFileDescriptor)
    else if fs.fds[fd].ino !in fs.inodes then Some(FileNotFound)
    else if fs.inodes[fs.fds[fd].ino].kind != File then Some(IsADirectory)
    else None
  }

  function Moved(fs: Fs, fd: nat, offset: nat): Fs
    requires fd in fs.fds
  {
    fs.(fds := fs.fds[fd := fs.fds[fd].(offset := offset)])
  }

  function Read(fs: Fs, fd: nat, n: nat): (Fs, Result<seq<byte>>) {
    match Blocked(fs, fd)
    case Some(e) => (fs, Err(e))
    case None =>
      var desc := fs.fds[fd];
      var got := ReadAt(fs.inodes[desc.ino].data, desc.offset, n);
      (Moved(fs, fd, desc.offset + |got|), Ok(got))
  }

  function Write(fs: Fs, fd: nat, bytes: seq<byte>): (Fs, Result<nat>) {
    match Blocked(fs, fd)
    case Some(e) => (fs, Err(e))
    case None =>
      var desc := fs.fds[fd];
      if desc.offset + |bytes| >= WORD then (fs, Err(InvalidInput))
      else
        var data := WriteAt(fs.inodes[desc.ino].data, desc.offset, bytes);
        (Moved(fs, fd, desc.offset + |bytes|).(inodes := SetData(fs.inodes, desc.ino, data)), Ok(|bytes|))
  }

  function Seek(fs: Fs, fd: nat, pos: nat): (Fs, Result<()>) {
    if fd !in fs.fds then (fs, Err(InvalidFileDescriptor)) else (Moved(fs, fd, pos), Ok(()))
  }

  function Close(fs: Fs, fd: nat): (Fs, Result<()>) {
    if fd !in fs.fds then (fs, Err(InvalidFileDescriptor)) else (fs.(fds := fs.fds - {fd}), Ok(()))
  }

  /** What was written is read back after seeking to where the write began. */
  lemma WriteSeekRead(fs: Fs, fd: nat, bytes: seq<byte>)
    requires Write(fs, fd, bytes).1.Ok?
    ensures var back := Seek(Write(fs, fd, bytes).0, fd, fs.fds[fd].offset).0;
      && Read(back, fd, |bytes|).1 == Ok(bytes)
      && Read(back, fd, |bytes|).0 == Write(fs, fd, bytes).0
  {
    hide WriteAt;
    var written := Write(fs, fd, bytes).0;
    var desc := fs.fds[fd];
    var data := written.inodes[desc.ino].data;
    assert bytes == [] ==> ReadAt(data, desc.offset, 0) == [];
    var back := Seek(written, fd, desc.offset).0;
    assert back.inodes == written.inodes && Blocked(back, fd) == None;
    assert ReadAt(data, desc.offset, |bytes|) == bytes;
    assert Read(back, fd, |bytes|).0.fds == written.fds;
  }

  /** A write is seen only through its own inode. */
  lemma WriteTouchesOneFile(fs: Fs, fd: nat, bytes: seq<byte>, i: nat)
    requires Write(fs, fd, bytes).1.Ok? && i in fs.inodes && i != fs.fds[fd].ino
    ensures i in Write(fs, fd, bytes).0.inodes && Write(fs, fd, bytes).0.inodes[i] == fs.inodes[i]
  {
    hide WriteAt;
  }

  // ------------------------------------------------------------- runs

  datatype Action =
    | DoCreate(path: string, kind: Kind)
    | DoMkdir(path: string)
    | DoUnlink(path: string)
    | DoOpen(path: string, flags: nat)
    | DoRead(fd: nat, n: nat)
    | DoWrite(fd: nat, bytes: seq<byte>)
    | DoSeek(fd: nat, pos: nat)
    | DoClose(fd: nat)

  function Step(fs: Fs, a: Action): Fs {
    match a
    case DoCreate(path, kind) => Create(fs, path, kind).0
    case DoMkdir(path) => Mkdir(fs, path).0
    case DoUnlink(path) => Unlink(fs, path).0
    case DoOpen(path, flags) => Open(fs, path, flags).0
    case DoRead(fd, n) => Read(fs, fd, n).0
    case DoWrite(fd, bytes) => Write(fs, fd, bytes).0
    case DoSeek(fd, pos) => Seek(fs, fd, pos).0
    case DoClose(fd) => Close(fs, fd).0
  }

  function Run(fs: Fs, actions: seq<Action>): Fs
    decreases |actions|
  {
    if actions == [] then fs else Run(Step(fs, actions[0]), actions[1..])
  }

  function Fresh(): Fs {
    Fs(map[ROOT := NewInode("", Directory, 0)], ROOT + 1, map[], 0)
  }

  // Descriptors name inodes that were handed out at some time.
  ghost predicate FdsOk(fs: Fs) {
    forall fd :: fd in fs.fds ==> fs.fds[fd].ino < fs.nextIno
  }

  ghost predicate Inv(fs: Fs) {
    TreeInv(fs.inodes, fs.nextIno) && FdsOk(fs)
  }

  lemma FreshInv()
    ensures Inv(Fresh())
  {
    var t := Fresh().inodes;
    assert NodeOk(t, ROOT);
  }

  // `after` can follow `before`: numbers only grow, none comes back, and an inode keeps its identity.
  ghost predicate Later(before: Fs, after: Fs) {
    && before.nextIno <= after.nextIno
    && (forall i :: i < before.nextIno && i in after.inodes ==>
      && i in before.inodes
      && after.inodes[i].name == before.inodes[i].name
      && after.inodes[i].kind == before.inodes[i].kind
      && after.inodes[i].parent == before.inodes[i].parent)
  }

  lemma CreateStep(fs: Fs, path: string, kind: Kind)
    requires Inv(fs)
    ensures Inv(Create(fs, path, kind).0) && Later(fs, Create(fs, path, kind).0)
  {
    hide TreeInv, Lookup, LookupParent;
    CreateEffect(fs, path, kind, []);
  }

  lemma UnlinkStep(fs: Fs, path: string)
    requires Inv(fs)
    ensures Inv(Unlink(fs, path).0) && Later(fs, Unlink(fs, path).0)
  {
    hide TreeInv, Lookup, LookupParent, FindNamed, Without;
    UnlinkEffect(fs, path, []);
  }

  lemma OpenStep(fs: Fs, path: string, flags: nat)
    requires Inv(fs)
    ensures Inv(Open(fs, path, flags).0) && Later(fs, Open(fs, path, flags).0)
  {
    hide Lookup, PathOf, Resolved, NodeOk, ChildrenOk, SiblingsDiffer;
    match Lookup(fs.inodes, path)
    case None =>
    case Some(ino) => LookupIsResolved(fs.inodes, fs.nextIno, path, ino);
  }

  lemma WriteStep(fs: Fs, fd: nat, bytes: seq<byte>)
    requires Inv(fs)
    ensures Inv(Write(fs, fd, bytes).0) && Later(fs, Write(fs, fd, bytes).0)
  {
    hide TreeInv, WriteAt;
    if Write(fs, fd, bytes).1.Ok? {
      var ino := fs.fds[fd].ino;
      SetDataInv(fs.inodes, fs.nextIno, ino, WriteAt(fs.inodes[ino].data, fs.fds[fd].offset, bytes));
    }
  }

  lemma StepInv(fs: Fs, a: Action)
    requires Inv(fs)
    ensures Inv(Step(fs, a)) && Later(fs, Step(fs, a))
  {
    hide TreeInv, Create, Unlink, Open, Write, LookupParent, ReadAt;
    match a
    case DoCreate(path, kind) => CreateStep(fs, path, kind);
    case DoMkdir(path) => CreateStep(fs, path, Directory);
    case DoUnlink(path) => UnlinkStep(fs, path);
    case DoOpen(path, flags) => OpenStep(fs, path, flags);
    case DoRead(fd, n) =>
    case DoWrite(fd, bytes) => WriteStep(fs, fd, bytes);
    case DoSeek(fd, pos) =>
    case DoClose(fd) =>
  }

  /** Over every run the inodes stay a tree, and an inode number is never given to a second file. */
  lemma {:induction false} RunInv(fs: Fs, actions: seq<Action>)
    requires Inv(fs)
    ensures Inv(Run(fs, actions)) && Later(fs, Run(fs, actions))
    decreases |actions|
  {
    hide Step, TreeInv, FdsOk;
    if actions != [] {
      StepInv(fs, actions[0]);
      RunInv(Step(fs, actions[0]), actions[1..]);
    }
  }

  /** What holds of every state a new file system can reach. */
  lemma {:induction false} TreeOverEveryRun(actions: seq<Action>, i: nat, j: nat)
    ensures var fs := Run(Fresh(), actions);
      && Inv(fs)
      && (i in fs.inodes ==> fs.inodes[i].size == |fs.inodes[i].data|)
      && (i in fs.inodes && i != ROOT ==>
        && Proper(fs.inodes[i].name) && fs.inodes[i].parent in fs.inodes && fs.inodes[i].parent < i
        && (j in fs.inodes && j != ROOT && j != i && fs.inodes[j].parent == fs.inodes[i].parent
          ==> fs.inodes[j].name != fs.inodes[i].name))
  {
    hide Run, ChildrenOk, NoDuplicates, Proper;
    FreshInv();
    RunInv(Fresh(), actions);
    var fs := Run(Fresh(), actions);
    assert i in fs.inodes ==> NodeOk(fs.inodes, i);
  }

  /** In every reachable file system a path that resolves keeps its meaning under normalisation. */
  lemma {:induction false} NormalizeOverEveryRun(actions: seq<Action>, path: string)
    ensures var t := Run(Fresh(), actions).inodes;
      Lookup(t, path).Some? ==> Lookup(t, Normalize(path)) == Lookup(t, path)
  {
    hide Run, TreeInv, Lookup, Normalize;
    FreshInv();
    RunInv(Fresh(), actions);
    var fs := Run(Fresh(), actions);
    if Lookup(fs.inodes, path).Some? { NormalizeKeepsMeaning(fs.inodes, fs.nextIno, path); }
  }

  // No action of the run closes the descriptor or, its counter having wrapped, issues its number again.
  ghost predicate Kept(fs: Fs, actions: seq<Action>, fd: nat)
    decreases |actions|
  {
    actions == [] || (
      && actions[0] != DoClose(fd)
      && !(actions[0].DoOpen? && fs.nextFd == fd)
      && Kept(Step(fs, actions[0]), actions[1..], fd))
  }

  lemma StepKeepsDescriptor(fs: Fs, a: Action, fd: nat)
    requires fd in fs.fds && a != DoClose(fd) && !(a.DoOpen? && fs.nextFd == fd)
    ensures fd in Step(fs, a).fds && Step(fs, a).fds[fd].ino == fs.fds[fd].ino
  {
    hide Lookup, LookupParent, LookupChild, Insert, Remove, WriteAt, ReadAt;
  }

  /** A descriptor names one inode for as long as it is open. */
  lemma {:induction false} DescriptorKeepsInode(fs: Fs, actions: seq<Action>, fd: nat)
    requires fd in fs.fds && Kept(fs, actions, fd)
    ensures fd in Run(fs, actions).fds && Run(fs, actions).fds[fd].ino == fs.fds[fd].ino
    decreases |actions|
  {
    hide Step;
    if actions != [] {
      StepKeepsDescriptor(fs, actions[0], fd);
      DescriptorKeepsInode(Step(fs, actions[0]), actions[1..], fd);
    }
  }

  /** Once its file is unlinked a descriptor reads and writes nothing, whatever is created later. */
  lemma {:induction false} UnlinkedNeverReached(fs: Fs, actions: seq<Action>, fd: nat, n: nat, bytes: seq<byte>)
    requires Inv(fs) && fd in fs.fds && fs.fds[fd].ino !in fs.inodes && Kept(fs, actions, fd)
    ensures var end := Run(fs, actions);
      Read(end, fd, n) == (end, Err(FileNotFound)) && Write(end, fd, bytes) == (end, Err(FileNotFound))
  {
    hide Run, Kept, TreeInv;
    RunInv(fs, actions);
    DescriptorKeepsInode(fs, actions, fd);
  }

  /** An open descriptor reaches the file it was opened on or none: same name, kind and parent. */
  lemma {:induction false} DescriptorReachesItsFile(fs: Fs, path: string, flags: nat, actions: seq<Action>)
    requires Inv(fs) && Open(fs, path, flags).1.Some?
    requires Kept(Open(fs, path, flags).0, actions, fs.nextFd)
    ensures var end := Run(Open(fs, path, flags).0, actions);
      && fs.nextFd in end.fds
      && var ino := end.fds[fs.nextFd].ino;
      && Lookup(fs.inodes, path) == Some(ino) && ino in fs.inodes
      && (ino in end.inodes ==>
        && end.inodes[ino].name == fs.inodes[ino].name
        && end.inodes[ino].kind == fs.inodes[ino].kind
        && end.inodes[ino].parent == fs.inodes[ino].parent)
  {
    hide Run, Kept, TreeInv, Lookup, PathOf, Resolved;
    var start := Open(fs, path, flags).0;
    LookupIsResolved(fs.inodes, fs.nextIno, path, Lookup(fs.inodes, path).value);
    OpenStep(fs, path, flags);
    RunInv(start, actions);
    DescriptorKeepsInode(start, actions, fs.nextFd);
  }
}
