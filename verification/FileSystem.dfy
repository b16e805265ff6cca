/** The in-memory file system as an object: its fields updated in place, each method proved against the value model. */
module FileSystem {
  import opened Arithmetic
  import opened Wrappers
  import opened Paths
  import opened Tree
  import M = MemFs
  import D = Descriptors
  import F = FileCalls

  // `copy_from_slice` into the front of a buffer.
  method CopyFront(buf: array<byte>, data: seq<byte>)
    requires |data| <= buf.Length
    modifies buf
    ensures buf[..] == data + old(buf[..])[|data|..]
  {
    forall k | 0 <= k < |data| { buf[k] := data[k]; }
  }

  class MemFileSystem {
    var inodes: Inodes
    var nextIno: nat
    var fds: map<nat, M.Descriptor>
    var nextFd: nat

    ghost function Value(): M.Fs
      reads this
    {
      M.Fs(inodes, nextIno, fds, nextFd)
    }

    constructor ()
      ensures Value() == D.Fresh() && D.Inv(Value())
    {
      inodes := map[ROOT := NewInode("", Directory, 0)];
      nextIno := 2;
      fds := map[];
      nextFd := 0;
      D.FreshInv();
    }

    method Create(path: string, kind: Kind) returns (r: Option<nat>)
      modifies this
      ensures (Value(), r) == M.Create(old(Value()), path, kind)
      ensures D.Inv(old(Value())) ==> D.Inv(Value()) && (r.Some? ==> Lookup(inodes, path) == r)
    {
      hide Lookup, M.LookupParent, D.Inv;
      if D.Inv(Value()) {
        D.CreateStep(Value(), path, kind);
        CreatedFacts(Value(), path, kind);
      }
      if Lookup(inodes, path).Some? { return None; }
      var place := M.LookupParent(inodes, path);
      if place.None? { return None; }
      var (dir, name) := place.value;
      if dir !in inodes || inodes[dir].kind != Directory { return None; }
      var ino := nextIno;
      nextIno := ino + 1;
      inodes := inodes[ino := NewInode(name, kind, dir)];
      inodes := inodes[dir := inodes[dir].(children := inodes[dir].children + [ino])];
      r := Some(ino);
    }

    method Mkdir(path: string) returns (r: Result<()>)
      modifies this
      ensures (Value(), r) == M.Mkdir(old(Value()), path)
      ensures D.Inv(old(Value())) ==> D.Inv(Value())
    {
      hide Lookup, M.LookupParent, D.Inv, M.Create;
      if path == "/" { return Ok(()); }
      if M.LookupParent(inodes, path).None? { return Err(InvalidPath); }
      var made := Create(path, Directory);
      r := if made.None? then Err(PermissionDenied) else Ok(());
    }

    method Unlink(path: string) returns (r: Result<()>)
      modifies this
      ensures (Value(), r) == M.Unlink(old(Value()), path)
      ensures D.Inv(old(Value())) ==> D.Inv(Value()) && (r.Ok? ==> Lookup(inodes, path) == None)
    {
      hide Lookup, M.LookupParent, D.Inv, FindNamed, M.Without;
      if D.Inv(Value()) {
        D.UnlinkStep(Value(), path);
        UnlinkedFacts(Value(), path);
      }
      var place := M.LookupParent(inodes, path);
      if place.None? { return Err(FileNotFound); }
      var (dir, name) := place.value;
      var found := LookupChild(inodes, dir, name);
      if found.None? { return Err(FileNotFound); }
      var child := found.value;
      if child !in inodes { return Err(FileNotFound); }
      if inodes[child].kind == Directory && inodes[child].children != [] { return Err(DirectoryNotEmpty); }
      inodes := inodes[dir := inodes[dir].(children := M.Without(inodes[dir].children, child))];
      inodes := inodes - {child};
      r := Ok(());
    }

    method Open(path: string, flags: nat) returns (r: Option<M.Descriptor>)
      modifies this
      ensures (Value(), r) == D.Open(old(Value()), path, flags)
      ensures D.Inv(old(Value())) ==> D.Inv(Value())
    {
      hide Lookup, D.Inv;
      if D.Inv(Value()) { D.OpenStep(Value(), path, flags); }
      var found := Lookup(inodes, path);
      if found.None? { return None; }
      var fd := nextFd;
      nextFd := (nextFd + 1) % U32;
      var desc := M.Descriptor(fd, found.value, 0, flags);
      fds := fds[fd := desc];
      r := Some(desc);
    }

    /**
     * Fills the front of the buffer with what is left of the file, as far as it goes, and leaves the rest
     * of the buffer alone.
     */
    method Read(fd: nat, buf: array<byte>) returns (r: Result<nat>)
      modifies this, buf
      ensures Value() == D.Read(old(Value()), fd, buf.Length).0
      ensures match D.Read(old(Value()), fd, buf.Length).1
        case Err(e) => r == Err(e) && buf[..] == old(buf[..])
        case Ok(got) => |got| <= buf.Length && r == Ok(|got|) && buf[..] == got + old(buf[..])[|got|..]
      ensures F.Readable(old(Value()), fd) ==>
        var o, d := old(fds[fd].offset), F.DataOf(old(Value()), fd);
        var n := if o >= |d| then 0 else Min(buf.Length, |d| - o);
        && r == Ok(n) && Value() == F.AtOffset(old(Value()), fd, o + n)
        && (forall i :: 0 <= i < n ==> buf[i] == d[o + i])
        && (forall i :: n <= i < buf.Length ==> buf[i] == old(buf[i]))
      ensures !F.Readable(old(Value()), fd) ==>
        r.Err? && F.Refuses(old(Value()), fd, r.error) && Value() == old(Value()) && buf[..] == old(buf[..])
    {
      if F.Readable(Value(), fd) { F.ReadDelivers(Value(), fd, buf.Length); }
      if fd !in fds { return Err(InvalidFileDescriptor); }
      var desc := fds[fd];
      if desc.ino !in inodes { return Err(FileNotFound); }
      var ino := inodes[desc.ino];
      if ino.kind != File { return Err(IsADirectory); }
      var offset := desc.offset;
      if offset >= |ino.data| {
        assert fds[fd := desc] == fds;
        assert buf[..] == [] + old(buf[..])[0..];
        return Ok(0);
      }
      var n := Min(|ino.data| - offset, buf.Length);
      var got := ino.data[offset..offset + n];
      assert got == D.ReadAt(ino.data, offset, buf.Length);
      hide D.ReadAt;
      CopyFront(buf, got);
      fds := fds[fd := desc.(offset := offset + n)];
      r := Ok(n);
    }

    method Write(fd: nat, data: seq<byte>) returns (r: Result<nat>)
      modifies this
      ensures (Value(), r) == D.Write(old(Value()), fd, data)
      ensures D.Inv(old(Value())) ==> D.Inv(Value())
      ensures F.Readable(old(Value()), fd) && old(fds[fd].offset) + |data| < WORD ==>
        var o, d := old(fds[fd].offset), F.DataOf(old(Value()), fd);
        && r == Ok(|data|) && F.Readable(Value(), fd) && fds[fd].offset == o + |data|
        && var e := F.DataOf(Value(), fd);
        && |e| == Max(|d|, o + |data|)
        && forall k :: 0 <= k < |e| ==>
             e[k] == if o <= k < o + |data| then data[k - o] else if k < |d| then d[k] else 0
    {
      hide D.Inv;
      if F.Readable(Value(), fd) { F.WriteMeans(Value(), fd, data); }
      if D.Inv(Value()) { D.WriteStep(Value(), fd, data); }
      if fd !in fds { return Err(InvalidFileDescriptor); }
      var desc := fds[fd];
      if desc.ino !in inodes { return Err(FileNotFound); }
      var ino := inodes[desc.ino];
      if ino.kind != File { return Err(IsADirectory); }
      var newLen := desc.offset + |data|;
      if newLen >= WORD { return Err(InvalidInput); }
      var contents := ino.data;
      if newLen > |contents| { contents := contents + D.Zeros(newLen - |contents|); }
      contents := contents[..desc.offset] + data + contents[newLen..];
      inodes := inodes[desc.ino := ino.(data := contents, size := |contents|)];
      fds := fds[fd := desc.(offset := newLen)];
      r := Ok(|data|);
    }

    method Seek(fd: nat, pos: nat) returns (r: Result<()>)
      modifies this`fds
      ensures (Value(), r) == D.Seek(old(Value()), fd, pos)
    {
      if fd !in fds { return Err(InvalidFileDescriptor); }
      fds := fds[fd := fds[fd].(offset := pos)];
      r := Ok(());
    }

    method Close(fd: nat) returns (r: Result<()>)
      modifies this`fds
      ensures (Value(), r) == D.Close(old(Value()), fd)
    {
      if fd !in fds { return Err(InvalidFileDescriptor); }
      fds := fds - {fd};
      r := Ok(());
    }
  }

  lemma CreatedFacts(fs: M.Fs, path: string, kind: Kind)
    requires D.Inv(fs)
    ensures M.Create(fs, path, kind).1.Some? ==>
      Lookup(M.Create(fs, path, kind).0.inodes, path) == M.Create(fs, path, kind).1
  {
    hide Lookup, M.LookupParent, TreeInv;
    if M.Create(fs, path, kind).1.Some? { M.CreatedIsFound(fs, path, kind, path); }
  }

  lemma UnlinkedFacts(fs: M.Fs, path: string)
    requires D.Inv(fs)
    ensures M.Unlink(fs, path).1.Ok? ==> Lookup(M.Unlink(fs, path).0.inodes, path) == None
  {
    hide Lookup, M.Unlink, TreeInv;
    if M.Unlink(fs, path).1.Ok? { M.UnlinkedIsGone(fs, path, path); }
  }
}
