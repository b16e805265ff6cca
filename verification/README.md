# Fullerene: models and proofs

Fullerene is a small operating system for x86-64 written in Rust. This project models the parts of
it whose correctness is not visible from one function body, and proves what they are for: over every
input, every run or every interleaving. Each module follows one component.

| module | component | main results |
|---|---|---|
| `Paths`, `Tree`, `MemFs`, `Descriptors`, `FileCalls`, `FileSystem` | the in-memory file system of `genome` | the inodes stay a tree with named edges; lexical normalisation agrees with the walker; create and unlink change the meaning of one path; a descriptor never reaches a second file; what every call delivers and changes, byte by byte |
| `Mounts`, `VirtualFs`, `VfsRuns`, `VfsEffects` | the mount router of `genome`, alone and with the file systems behind it | string routing is longest-prefix routing on components; an operation on one path leaves every other path on every mount alone; both over every run |
| `VfsHandles`, `HandleEffects` | the kernel's table of open files | a global descriptor stays on its file system and inode while mounts shift; exactly when an open cut in two goes wrong |
| `Slab`, `Slabs` | the slab allocator of the kernel, one cache and all nine | free lists inside page memory survive arbitrary client writes; objects are disjoint and keep their bytes |
| `SpscQueue`, `QueueObservers`, `Resampler`, `Arithmetic` | the audio path of `nitrogen` | first-in first-out and exclusive ownership over every interleaving; the loop stops at the ceiling formula |
| `Scheduler`, `ProcessStates` | the round-robin scheduler | what every call does to every process; a blocked process sleeps until woken; one running process, fault recovery included; bounded waiting; what `cleanup` breaks, exactly |
| `KeyWrap` | AES key unwrap of `bonder` | unwrap is the inverse of wrap, both ways, and wrap is the shifting-register form of RFC 3394 |
| `Cpio`, `Newc`, `Utf8`, `Unpacking`, `Initramfs`, `Ports` | the initial file system archive | the reader undoes the writer, exactly when; what any archive leaves on the booted system; the archive the build script writes is lost |
| `Checksum` | UDP and IPv4 of `bonder` | every datagram verifies; when an IPv4 header does not |
| `Timers` | `chronoline` | draining, phase and missed counts over every run |
| `Editor` | the text buffer of `lattice` | the rows refine a flat text with one cursor |
| `Handles`, `BlockIo`, `UserMemory`, `Calendar` | handle table, block device files, user strings, wall clock | each refines a simple specification |

State that the source updates in place is a class whose methods are proved equal to functions on
values; the theorems about whole runs are about those functions. Code that only computes is functions.
`dafny verify dfyconfig.toml` checks everything.

## Where the code differs from what it promises

- `normalize_path` is not always meaning-preserving backwards: `/missing/..` does not resolve, `/` does (`Tree.LeavingMissingFails`, exact condition `Tree.LookupIff`).
- `output_frames` truncates when `in_frames * out_rate > (2^64 - 1) * in_rate` (`Resampler.OutputFramesIsExactIff`).
- `cleanup` moves processes without moving `schedule_index`. Called as the public function it is, between steps, it can leave two processes Running after the next `schedule_next` (`Scheduler.CleanupReachesTwoRunning`, exact condition `Scheduler.CleanupThenScheduleIff`). The recovery code calls it only after the current process has ended, and there this does not happen; but when only idle survives a fault nobody is Running (`Scheduler.FaultReachesNoneRunning`, exact condition `Scheduler.FaultRecoveryIff`).
- `build_packet` converts the IPv4 checksum to big endian twice (`Checksum.SentHeaderVerifiesIff`).
- At `u64::MAX` a repeating timer is due again at once, so draining does not end (`Timers.DrainTerminatesIff`).
- A handle table beyond 256 slots issues handles that name other slots (`Handles.Allocation257Aliases`, exact condition `Handles.FreshHandleResolvesIff`).
- The editor drops the CR of CR LF on loading and drops rows that are not UTF-8 on saving (`Editor.FromTextRoundTrip`, `Editor.FullTextIsJoinIff`).
- The archive writer announces size 0 for a directory but writes its body, so archives read back exactly when no directory has one and no entry is called TRAILER!!! (`Cpio.ArchiveRoundTripIff`; `Cpio.DirectoryBodyDerails` shows one way it fails).
- The archive the build script writes has no entry for `packages` itself, and unpacking makes at most one missing directory, so into a system without `packages`, as boot leaves it, every port is dropped without an error (`Ports.BootLosesPorts`, exact condition `Ports.PortShownIff`).
- `open` and `create` look the mount index up and register it under two locks. An unmount of that mount or an earlier one in between leaves a descriptor on another file system (`VfsHandles.StaleIndexLeadsElsewhere`, exact condition `VfsHandles.OpenInTwoHalves`). The global kernel lock rules this out today.
- `mount` resolves its point from the root, `unmount` from the working directory (`VfsHandles.UnmountUndoesMountIff`).
- `available` loads the two counters one after the other. Producer and consumer may trust what they see; any other caller can see 2^64 - 1 (`QueueObservers.AnybodyCanSeeNonsense`, exact value `QueueObservers.AnybodySees`).
- `alloc(size)` of the slab allocator hands out 4096 bytes for any larger size (`Slabs.AllocGives`).
- `ensure_cursor_visible` forms sums that overflow where `clamp_scroll_with_viewport` saturates, so the two differ for some viewport heights (`Editor.ClampsAgreeIff`).
- The clock check accepts dates such as 31 February (`Calendar.UniqueIffValid`).

## Model

| member | source | states |
|---|---|---|
| Paths.NormalizePath | genome/src/vfs.rs:695-717 | the stack loop and the joining loop return the rendering of the folded components, for every string |
| Paths.ComponentsJoin | genome/src/vfs.rs:148 | a slash separates components wherever it stands: the components of `a/b` are those of a, then those of b |
| Paths.ComponentsOfRender | genome/src/vfs.rs:695-717 | joining plain names and splitting the result gives the names back |
| Paths.NormalizeIdempotent | genome/src/vfs.rs:695-717 | normalising twice is normalising once, and the components of the normal form are the resolved components |
| Paths.NormalizeInjective | genome/src/vfs.rs:695-717 | two paths have the same normal form exactly when they resolve to the same component list |
| Paths.ResolvedJoin | genome/src/vfs.rs:695-717 | a path behind another continues from the components the first one resolved to |
| Paths.ComponentsTrimStart | genome/src/vfs.rs:142-148 | the leading slashes dropped before splitting do not change the components |
| Paths.ComponentsTrimEnd | genome/src/vfs.rs:180 | nor do the trailing ones |
| Tree.LookupChildIff | genome/src/vfs.rs:198-205 | a name below a directory finds a child exactly when that child has this parent and name |
| Tree.FollowIsFold | genome/src/vfs.rs:138-177 | where a walk arrives, the canonical path of the inode is the component stack of the normaliser |
| Tree.PathReaches | genome/src/vfs.rs:138-177 | every inode is reached by its canonical path, so the inodes hang together as one tree |
| Tree.ProperPathIff | genome/src/vfs.rs:138-177 | a list of proper names leads to an inode exactly when it is that inode's canonical path |
| Tree.WalkIsFollow | genome/src/vfs.rs:138-177 | in a tree without links the depth-bounded walker is the plain walk, at every depth |
| Tree.LookupIsFollow | genome/src/vfs.rs:134-177 | looking a path up is walking its components from the root, whatever slashes it has |
| Tree.LookupIsResolved | genome/src/vfs.rs:134-177 | a path that resolves leads to the inode whose canonical path is the resolved path |
| Tree.NormalizeKeepsMeaning | genome/src/vfs.rs:134-177 | if a path resolves to an inode, its normal form resolves to the same inode |
| Tree.LookupIff | genome/src/vfs.rs:134-177 | a path resolves exactly when every prefix of its components does once normalised |
| Tree.LeavingMissingFails | genome/src/vfs.rs:153-163 | the converse of the normalisation law is false: `/name/..` with a missing name does not resolve, its normal form `/` does |
| MemFs.InsertInv | genome/src/vfs.rs:314-320 | adding a new proper name below a directory keeps the tree |
| MemFs.RemoveInv | genome/src/vfs.rs:343-346 | taking a leaf away keeps the tree |
| MemFs.SetDataInv | genome/src/vfs.rs:263-268 | new contents keep the tree, size equal to the data length included |
| MemFs.InsertMeaning | genome/src/vfs.rs:314-320 | after an insertion exactly one more name list resolves, all others as before |
| MemFs.RemoveMeaning | genome/src/vfs.rs:343-346 | after a removal exactly one name list less resolves, all others as before |
| MemFs.LookupGrows | genome/src/vfs.rs:134-177 | a path that resolves in a tree resolves alike in every tree that contains it |
| MemFs.ParentStep | genome/src/vfs.rs:179-196 | a path is one step from the parent found for it, to a slash-free non-empty name, and its normal form extends the parent's path by that step |
| MemFs.ParentFoundIff | genome/src/vfs.rs:179-196 | the parent of a path is found exactly when all names but the last resolve |
| MemFs.CreateEffect | genome/src/vfs.rs:305-322 | create keeps the tree; success adds exactly the normal form of its path with a fresh inode number, failure changes nothing |
| MemFs.CreatedIsFound | genome/src/vfs.rs:305-322 | the created inode is found under the very path given, and every path that resolved before keeps its meaning |
| MemFs.UnlinkEffect | genome/src/vfs.rs:334-348 | unlink keeps the tree; success removes exactly the normal form of its path, failure changes nothing |
| MemFs.UnlinkedIsGone | genome/src/vfs.rs:334-348 | the unlinked path no longer resolves, and what still resolves means what it did |
| Descriptors.WriteAt | genome/src/vfs.rs:262-268 | the data written stands at the offset, bytes outside are kept, a gap is zero, the length is the larger of the two |
| Descriptors.WriteSeekRead | genome/src/vfs.rs:227-288 | writing, seeking back and reading as many bytes returns what was written and restores the descriptor |
| Descriptors.WriteTouchesOneFile | genome/src/vfs.rs:250-274 | a write changes no other inode |
| Descriptors.StepInv | genome/src/vfs.rs:213-348 | every operation keeps the tree, keeps descriptors on numbers handed out, and brings no number back |
| Descriptors.RunInv | genome/src/vfs.rs:213-348 | the same over every run: an inode number is never given to a second file |
| Descriptors.TreeOverEveryRun | genome/src/vfs.rs:122-132 | in every reachable state parents are older, siblings differ in name, no name is empty, "." or "..", and size is the data length |
| Descriptors.NormalizeOverEveryRun | genome/src/vfs.rs:134-177 | the normalisation law in every state a new file system can reach |
| Descriptors.DescriptorKeepsInode | genome/src/vfs.rs:213-225 | a descriptor that is neither closed nor reissued names the same inode throughout a run |
| Descriptors.UnlinkedNeverReached | genome/src/vfs.rs:227-256 | after its file is unlinked a descriptor reads and writes nothing, whatever is created later |
| Descriptors.DescriptorReachesItsFile | genome/src/vfs.rs:213-225 | over every run a descriptor reaches the file its path named when opened, with the same name, kind and parent, or no file |
| FileSystem.MemFileSystem.constructor | genome/src/vfs.rs:122-132 | a root directory, numbers from 2, no descriptors; the invariant holds |
| FileSystem.MemFileSystem.Create | genome/src/vfs.rs:305-322 | the two map updates are the value model's create; what was created is found |
| FileSystem.MemFileSystem.Mkdir | genome/src/vfs.rs:324-332 | success on "/", InvalidPath without a parent, PermissionDenied when create refuses |
| FileSystem.MemFileSystem.Unlink | genome/src/vfs.rs:334-348 | the value model's unlink, error cases included; the path is gone after success |
| FileSystem.MemFileSystem.Open | genome/src/vfs.rs:213-225 | the next descriptor number at offset 0, the counter wrapping at 2^32 |
| FileSystem.MemFileSystem.Read | genome/src/vfs.rs:227-248 | min(buffer, length - offset) bytes from the offset on stand at the front of the buffer, the rest of it is untouched, the offset moves by the count; errors change nothing |
| FileSystem.MemFileSystem.Write | genome/src/vfs.rs:250-274 | the file holds the bytes at the offset, zeros in a gap and its old bytes elsewhere; InvalidInput when the end does not fit 64 bits |
| FileSystem.MemFileSystem.Seek | genome/src/vfs.rs:281-288 | moves one descriptor (`FileCalls.SeekMeans`) |
| FileSystem.MemFileSystem.Close | genome/src/vfs.rs:276-279 | removes one descriptor (`FileCalls.CloseMeans`) |
| FileCalls.ReadDelivers | genome/src/vfs.rs:227-248 | a read of n bytes delivers min(n, length - offset) bytes, none past the end; byte i is byte offset + i of the file, the offset moves by the count and nothing else changes |
| FileCalls.ReadRefused | genome/src/vfs.rs:227-248 | which error a descriptor that cannot be read gives, and that nothing changes |
| FileCalls.ReadManyDelivers | genome/src/vfs.rs:227-248 | reads of any sizes deliver one contiguous piece of the file, as long as the sizes add up to or the file allows |
| FileCalls.ReadToEnd | genome/src/vfs.rs:227-248 | non-empty reads until one delivers nothing delivered the file from the offset to its end, and within as many reads as the file has bytes one delivers nothing |
| FileCalls.WriteMeans | genome/src/vfs.rs:250-274 | a write puts its bytes at the offset, keeps every other byte, fills a gap with zeros, moves the offset behind it, and changes no other inode or descriptor |
| FileCalls.WriteRefused | genome/src/vfs.rs:250-274 | which error a write gives and that nothing changes |
| FileCalls.SeekMeans | genome/src/vfs.rs:281-288 | succeeds exactly for an open descriptor, moves it anywhere and changes nothing else |
| FileCalls.CloseMeans | genome/src/vfs.rs:276-279 | a closed descriptor refuses everything; the others are as they were |
| FileCalls.OpenMeans | genome/src/vfs.rs:213-225 | succeeds exactly for a path that resolves: a descriptor on its inode, at the start |
| FileCalls.CreateOutcome | genome/src/vfs.rs:305-322 | creation succeeds exactly where nothing resolves, below a directory, for any path whatever |
| FileCalls.CreateMakes | genome/src/vfs.rs:305-322 | one empty inode under the last name, listed last in its directory, under the next number; nothing else changes |
| FileCalls.MkdirOutcome | genome/src/vfs.rs:324-332 | which of its three outcomes mkdir has, for any path |
| FileCalls.UnlinkOutcome | genome/src/vfs.rs:334-348 | unlink succeeds exactly for a path that resolves, ends in a plain name and leads to no directory with entries; else which error |
| FileCalls.UnlinkTakes | genome/src/vfs.rs:334-348 | takes the one inode away and its number from its directory's list; nothing else changes |
| Mounts.RelativeIff | genome/src/vfs.rs:682-693 | on normal paths the string test with its boundary check is the prefix test on components, and mount point and remainder join to the path |
| Mounts.LongerIff | genome/src/vfs.rs:506-516 | among mount points above a path, the longer string is the one with more components |
| Mounts.FindIndexIsMax | genome/src/vfs.rs:506-516 | no matching mount point is longer than the chosen one |
| Mounts.RoutesToLongestPrefix | genome/src/vfs.rs:495-516 | every normal path is routed to the one mount whose components are its longest prefix; the remainder is the rest of the components |
| Mounts.ResolveIsFold | genome/src/vfs.rs:479-493 | resolving folds the path onto the working directory's components, or onto none if absolute, and gives a normal path |
| Mounts.MountInv | genome/src/vfs.rs:433-454 | mounting keeps the points normal, distinct and with "/" |
| Mounts.MountMeans | genome/src/vfs.rs:433-454 | a mount that succeeds stands at its point, in the place of the old one or last, and every other mount stays where it is; an error changes nothing |
| Mounts.UnmountInv | genome/src/vfs.rs:456-464 | so does unmounting |
| Mounts.RunInv | genome/src/vfs.rs:425-464 | so does every run of mount, unmount and change_directory |
| Mounts.RoutingOverEveryRun | genome/src/vfs.rs:425-516 | after any run every path, relative or absolute, is routed to the longest prefix of the components it stands for |
| Mounts.UnmountUndoesMount | genome/src/vfs.rs:433-464 | unmounting a point that was free before the mount restores the table |
| Mounts.Vfs.constructor | genome/src/vfs.rs:410-419 | one mount at "/", working directory "/" |
| Mounts.Vfs.Resolve | genome/src/vfs.rs:479-493 | the three branches of resolve_path |
| Mounts.Vfs.MountFs | genome/src/vfs.rs:433-454 | error cases, replacement of an existing point, or a new entry; the invariant is kept |
| Mounts.Vfs.Unmount | genome/src/vfs.rs:456-464 | InvalidInput for "/", otherwise removal and whether anything was removed; the invariant is kept |
| Mounts.Vfs.ChangeDirectory | genome/src/vfs.rs:425-431 | the working directory changes only when the target lists; the invariant is kept |
| VirtualFs.CreateSucceedsIff | genome/src/vfs.rs:305-322 | on a path of proper names creation succeeds exactly where nothing is, below a directory |
| VirtualFs.CreateFileNode | fullerene-kernel/src/fs.rs:48-68 | create, open, write and close put the bytes under the path and change no other path |
| VirtualFs.CreateFileCloses | fullerene-kernel/src/fs.rs:48-68 | no descriptor is left behind or changed, whether it succeeds or not |
| VirtualFs.CreateView | genome/src/vfs.rs:604-606 | creating through the router changes what the whole system shows under one list of names only, on whichever mount |
| VirtualFs.CreateViewIff | genome/src/vfs.rs:604-606 | it succeeds exactly where the system shows nothing, below a directory |
| VirtualFs.UnlinkView | genome/src/vfs.rs:612-614 | unlinking through the router removes what is shown under one list of names only |
| VirtualFs.UnlinkSucceedsIff | genome/src/vfs.rs:334-348 | on a path of proper names unlinking succeeds exactly for a name that is there and, if a directory, has nothing below it |
| VirtualFs.UnlinkViewIff | genome/src/vfs.rs:612-614 | through the router: exactly for names that show something, are no mount point and, if a directory, have nothing below them on their own file system |
| VirtualFs.InsideParent | genome/src/vfs.rs:506-516 | a mount point shows a directory, and names that are none and show something are below a directory |
| VirtualFs.CreateFileView | fullerene-kernel/src/fs.rs:48-68 | writing a new file through the router shows its bytes under its names and changes nothing else |
| VirtualFs.CreatedEverywhere | genome/src/vfs.rs:479-516 | after Vfs::create succeeds, every path standing for the same names is on the same file system and finds the very inode created; every other path shows what it did |
| VirtualFs.ShownIsRead | genome/src/vfs.rs:213-248 | opening a path that shows a file and reading its length returns its bytes |
| VfsRuns.StepInv | genome/src/vfs.rs:425-622 | mounting, unmounting, changing directory, a call by path and a call by mount index each keep one file system per mount, each a tree |
| VfsRuns.RunInv | genome/src/vfs.rs:425-622 | so does every run mixing them |
| VfsRuns.VfsOverEveryRun | genome/src/vfs.rs:410-622 | after every run from boot two paths name one file exactly when they stand for the same names: what one creates the other finds, or shows what it did before |
| VfsRuns.MountShows | genome/src/vfs.rs:433-454 | a mount on a free point shows an empty directory there, hides what was below except behind longer mount points, and leaves every other path alone |
| VfsHandles.FreeFromIsFirst | fullerene-kernel/src/contexts/vfs.rs:122-135 | the number given is the first free one in wrapping order; none is given only after every number was tried |
| VfsHandles.NoneIffAllUsed | fullerene-kernel/src/contexts/vfs.rs:122-135 | allocation fails exactly when all 2^32 numbers are in use |
| VfsHandles.HandleTable.constructor | fullerene-kernel/src/contexts/vfs.rs:80-85 | an empty table counting from 0 |
| VfsHandles.HandleTable.AllocateFd | fullerene-kernel/src/contexts/vfs.rs:122-135 | the wrapping loop ends, gives the first free number and leaves the counter behind it |
| VfsHandles.HandleTable.InsertHandle | fullerene-kernel/src/contexts/vfs.rs:87-96 | the entry appended under the number allocated, or nothing |
| VfsHandles.HandleTable.TakeHandle | fullerene-kernel/src/contexts/vfs.rs:110-120 | the first entry of a number, removed |
| VfsHandles.HandleTable.DiscardMount | fullerene-kernel/src/contexts/vfs.rs:190-197 | retaining and renumbering in two passes is one pass that drops the entries of a mount and lowers the later indices |
| VfsHandles.UnmountKeeps | fullerene-kernel/src/contexts/vfs.rs:180-202 | unmounting keeps every remaining entry on its file system although the indices shift |
| VfsHandles.StepInv | fullerene-kernel/src/contexts/vfs.rs:139-376 | every whole call keeps table entries distinct and on the file system they were opened on |
| VfsHandles.HandlesOverEveryRun | fullerene-kernel/src/contexts/vfs.rs:139-376 | over every run of opens, creates, closes, mounts and unmounts a global descriptor has one entry, and it leads to the file system and local descriptor it was opened on |
| VfsHandles.InodeOverEveryRun | fullerene-kernel/src/contexts/vfs.rs:139-376 | with fewer than 2^32 opens it moreover names the inode it was opened on, and no two global descriptors share a local one |
| VfsHandles.LandsIff | fullerene-kernel/src/contexts/vfs.rs:239-250 | between the two halves of an open any other calls may run: the index found stays right exactly when none unmounts that mount or an earlier one |
| VfsHandles.OpenInTwoHalves | fullerene-kernel/src/contexts/vfs.rs:239-250 | so the descriptor registered leads to the file system the file was opened on if and only if no such unmount came between |
| VfsHandles.StaleIndexLeadsElsewhere | fullerene-kernel/src/contexts/vfs.rs:474-485 | after such an unmount the registered index is the next mount's, a different file system, or no mount's |
| VfsHandles.UnmountUndoesMountIff | fullerene-kernel/src/contexts/vfs.rs:162-202 | unmount undoes mount exactly when the path means the same from the root as from the working directory |
| VfsEffects.CreateShows | genome/src/vfs.rs:604-606 | after create through the router, every list of names shows what it did, except the one meant: an empty node if nothing was there, below a directory |
| VfsEffects.MkdirShows | genome/src/vfs.rs:608-610 | the same for mkdir with a directory |
| VfsEffects.UnlinkShows | genome/src/vfs.rs:612-614 | after unlink through the router nothing is shown under the names meant, if they showed something that is no mount point and has nothing below it; all else as before |
| VfsEffects.QuietShows | genome/src/vfs.rs:540-575 | opening, reading, seeking and closing change nothing that is shown anywhere |
| VfsEffects.WriteShows | genome/src/vfs.rs:552-558 | a write through a mount changes the bytes shown under exactly the names, on that mount, that lead to the descriptor's inode |
| VfsEffects.MountSucceedsIff | genome/src/vfs.rs:433-454 | mounting succeeds exactly at the root or where a directory is shown; otherwise the error tells a file from nothing |
| VfsEffects.UnmountRestores | genome/src/vfs.rs:433-464 | unmounting what was mounted on a free point shows again, everywhere, what was shown before |
| VfsEffects.UnmountNothing | genome/src/vfs.rs:456-464 | the root and a point that is not mounted cannot be unmounted |
| VfsEffects.UnmountLeavesOthers | genome/src/vfs.rs:456-464 | unmounting leaves every path alone that another mount serves |
| VfsEffects.ChangeDirectoryMeans | genome/src/vfs.rs:425-431 | succeeds exactly where a directory is shown, otherwise the error tells a file from nothing; then a relative path continues from the names given, an absolute one means what it did |
| HandleEffects.InsertGives | fullerene-kernel/src/contexts/vfs.rs:87-96 | inserting gives a number that was free and changes the entry of no other |
| HandleEffects.InsertMovesOn | fullerene-kernel/src/contexts/vfs.rs:122-136 | a number given back is given again at once only when every other is in use |
| HandleEffects.TakeEnds | fullerene-kernel/src/contexts/vfs.rs:110-120 | taking ends one number and changes the entry of no other |
| HandleEffects.DiscardEnds | fullerene-kernel/src/contexts/vfs.rs:180-202 | discarding a mount ends exactly the numbers of that mount; the others keep their entry, renumbered |
| HandleEffects.OpenFirstIff | fullerene-kernel/src/contexts/vfs.rs:239-250 | the lookup of open and create succeeds exactly when the path shows something or, for create, there is a directory to make it in; it opens the very inode the path leads to |
| HandleEffects.OpenGives | fullerene-kernel/src/contexts/vfs.rs:239-250 | a path that shows nothing changes no entry; otherwise one free number leads to where it was opened, unless all numbers are in use |
| HandleEffects.FullTableCloses | fullerene-kernel/src/contexts/vfs.rs:474-485 | when all numbers are in use, the descriptor that was opened is closed again |
| HandleEffects.CallReaches | fullerene-kernel/src/contexts/vfs.rs:252-293 | read, write and seek reach the file system and descriptor the number was opened on and no other |
| HandleEffects.GlobalReadDelivers | fullerene-kernel/src/contexts/vfs.rs:252-262 | over every run with fewer than 2^32 opens, reading an open number delivers the bytes of the inode it was opened on, from its offset, as many as fit |
| HandleEffects.CloseEnds | fullerene-kernel/src/contexts/vfs.rs:275-283 | a closed number has no entry, its descriptor is closed and no other number is touched |
| HandleEffects.UnmountEnds | fullerene-kernel/src/contexts/vfs.rs:180-202 | unmounting ends exactly the numbers opened on the file system taken away |
| Slab.ReadAfterWrite | fullerene-kernel/src/slab.rs:84-105 | a link written into a slot is read back, and touches eight bytes only |
| Slab.ChainFrame | fullerene-kernel/src/slab.rs:84-105 | the embedded list depends only on the first words of free slots |
| Slab.FreshPageInv | fullerene-kernel/src/slab.rs:40-81 | a new page has every slot on its list, in ascending order |
| Slab.PageAllocInv | fullerene-kernel/src/slab.rs:84-92 | taking the head leaves the list of the other free slots |
| Slab.PageFreeInv | fullerene-kernel/src/slab.rs:95-105 | freeing puts the slot in front of an intact list |
| Slab.AllocInv | fullerene-kernel/src/slab.rs:137-156 | allocation, from an old or a new page, keeps free lists and held objects a partition of every page |
| Slab.FreeInv | fullerene-kernel/src/slab.rs:158-167 | so does freeing a held object |
| Slab.WriteInv | fullerene-kernel/src/slab.rs:84-105 | so does any byte a client writes into what it holds |
| Slab.ReapInv | fullerene-kernel/src/slab.rs:169-172 | so does reaping |
| Slab.EmptyIffUnheld | fullerene-kernel/src/slab.rs:107-109 | a page counts as empty exactly when no client holds an object in it |
| Slab.StepInv | fullerene-kernel/src/slab.rs:137-172 | every step keeps the invariant |
| Slab.ObjectsDisjoint | fullerene-kernel/src/slab.rs:137-167 | held objects lie inside live pages and share no byte |
| Slab.FullIff | fullerene-kernel/src/slab.rs:84-105 | free plus allocated is the capacity; an empty list means a full page |
| Slab.FrameOnlyWhenFull | fullerene-kernel/src/slab.rs:137-156 | a new frame is asked for exactly when every page is full |
| Slab.AllocIsFresh | fullerene-kernel/src/slab.rs:137-156 | allocation fails exactly when all pages are full and no frame comes; otherwise it returns an object nobody held |
| Slab.SlabOverEveryRun | fullerene-kernel/src/slab.rs:40-172 | over every run with client writes: the partition, objects in live pages, no two objects overlapping |
| Slab.AllocKeepsContents | fullerene-kernel/src/slab.rs:137-156 | allocation changes no byte of a held object |
| Slab.FreeKeepsContents | fullerene-kernel/src/slab.rs:158-167 | freeing changes no byte of any other held object |
| Slab.WriteChangesOneByte | fullerene-kernel/src/slab.rs:84-105 | a client write changes one byte of one object |
| Slab.ReapKeepsContents | fullerene-kernel/src/slab.rs:169-172 | reaping drops no held object and none of its bytes |
| Slab.ReapKeepsHeldPages | fullerene-kernel/src/slab.rs:169-172 | a page stays if and only if a client holds an object in it; pages that stay are unchanged and in their old order |
| Slab.FreeThenAlloc | fullerene-kernel/src/slab.rs:137-167 | what was freed last is given out next |
| Slab.AllocStaysOnPage | fullerene-kernel/src/slab.rs:137-156 | the next object comes from the same page as long as there is room in it |
| Slab.SizeToClass | fullerene-kernel/src/slab.rs:180-187 | the least class that fits; it is large enough exactly for sizes up to 4096 |
| Slabs.StepInv | fullerene-kernel/src/slab.rs:195-251 | alloc, free and reap over all nine caches keep every cache intact and no page in two of them |
| Slabs.SlabsOverEveryRun | fullerene-kernel/src/slab.rs:195-251 | over every run the objects held from all caches together share no byte, frames going from one cache to another included |
| Slabs.AllocGives | fullerene-kernel/src/slab.rs:180-216 | alloc(size) gives an object of the class of the size that nobody held, and it has room for size bytes exactly for sizes up to 4096 |
| Slabs.AllocHolds | fullerene-kernel/src/slab.rs:180-216 | allocating ends no hold on any object of any class |
| Slabs.FreeReleases | fullerene-kernel/src/slab.rs:220-241 | freeing ends the hold on one object and no other, in all nine caches |
| Slabs.ReapReleases | fullerene-kernel/src/slab.rs:243-251 | in every cache reap releases exactly the pages nobody holds an object in |
| Slab.SlabCache.constructor | fullerene-kernel/src/slab.rs:129-135 | a cache without pages |
| Slab.SlabCache.ScanPartial | fullerene-kernel/src/slab.rs:138-150 | the first page with a free slot in the range |
| Slab.SlabCache.Alloc | fullerene-kernel/src/slab.rs:137-156 | the hint scan, the wrap to the front and the fresh page are the value model's allocation |
| Slab.SlabCache.Free | fullerene-kernel/src/slab.rs:158-167 | the value model's free |
| Slab.SlabCache.Reap | fullerene-kernel/src/slab.rs:169-172 | the pages left are exactly those with a used slot, all of them as they were, in their old order; together with `Slab.EmptyIffUnheld`, those with a held object |
| Arithmetic.WrapSafeIffPowerOfTwo | nitrogen/src/audio.rs:222-232 | slot numbers survive the wrap of the counters at 2^64 exactly when the capacity is a power of two |
| SpscQueue.WrappingDistance | nitrogen/src/audio.rs:235-239 | the wrapping difference of the counters is the true distance |
| SpscQueue.TransferCellIsCell | nitrogen/src/audio.rs:259-272 | the two-chunk copy addresses the true cell of each byte, both wraps included |
| SpscQueue.StepInv | nitrogen/src/audio.rs:250-304 | each load, byte copy and store of either side keeps the invariant |
| SpscQueue.RunInv | nitrogen/src/audio.rs:250-304 | so does every interleaving |
| SpscQueue.FifoOverEveryRun | nitrogen/src/audio.rs:220-304 | over every interleaving the bytes taken are a prefix of those produced and the occupancy never exceeds the capacity |
| SpscQueue.OwnershipOverEveryRun | nitrogen/src/audio.rs:220-304 | over every interleaving a write in progress touches no unread cell and no cell of a read in progress |
| SpscQueue.CallIsRun | nitrogen/src/audio.rs:250-304 | an uninterrupted call is one of those interleavings |
| SpscQueue.WriteCallEffect | nitrogen/src/audio.rs:250-275 | a whole write appends the largest prefix that fits and changes no other cell |
| SpscQueue.ReadCallEffect | nitrogen/src/audio.rs:280-304 | a whole read takes the oldest bytes in order |
| SpscQueue.TransferIsRun | nitrogen/src/audio.rs:259-272 | the two block copies of write leave the buffer the byte-by-byte run leaves |
| SpscQueue.TransferIsContents | nitrogen/src/audio.rs:288-301 | the two block copies of read deliver the oldest unread bytes |
| SpscQueue.BufferQueue.constructor | nitrogen/src/audio.rs:222-232 | an empty queue of a power-of-two capacity |
| SpscQueue.BufferQueue.Available | nitrogen/src/audio.rs:235-239 | with nothing between its two loads, the number of unread bytes; with steps of others between them see QueueObservers |
| SpscQueue.BufferQueue.FreeSpace | nitrogen/src/audio.rs:242-244 | likewise, the capacity less the unread bytes |
| SpscQueue.BufferQueue.Write | nitrogen/src/audio.rs:250-275 | appends the first n bytes, n the smaller of length and free space, and is the run of single steps |
| SpscQueue.BufferQueue.Read | nitrogen/src/audio.rs:280-304 | removes the first n bytes into the destination and leaves the rest of it alone |
| SpscQueue.BufferQueue.ResetQueue | nitrogen/src/audio.rs:309-312 | empties the queue |
| QueueObservers.RunGrows | nitrogen/src/audio.rs:250-304 | over every run what was written and what was read only grow, and only the consumer moves the second |
| QueueObservers.ConsumerMayTrust | nitrogen/src/audio.rs:235-239 | loads in two steps, any producer steps between and after: what the consumer sees is there and stays there until it reads |
| QueueObservers.ProducerMayTrust | nitrogen/src/audio.rs:242-244 | likewise the free space the producer sees is free and stays free until it writes |
| QueueObservers.AnybodySees | nitrogen/src/audio.rs:235-239 | a third caller sees what was written by the first load less what was read by the second, modulo 2^64: at most the capacity exactly when no byte written after the first load was read before the second, unless 2^64 less the capacity bytes overtake it |
| QueueObservers.AnybodyCanSeeNonsense | nitrogen/src/audio.rs:235-239 | so one byte passing through between its loads makes an empty queue look 2^64 - 1 bytes full |
| Resampler.StopsAtTheCeiling | nitrogen/src/audio.rs:142-177 | the floor-indexed stop condition of the loop is exactly the ceiling formula |
| Resampler.PlaysInTime | nitrogen/src/audio.rs:123-165 | output frame j plays the one input frame heard when j starts and is written just when it starts before the input ends; channel ch plays channel ch or the last there is |
| Resampler.NextSourceFrameFits | nitrogen/src/audio.rs:142-146 | the u128-to-usize cast truncates nothing before the loop stops |
| Resampler.MapFrame | nitrogen/src/audio.rs:152-159 | one frame written, missing channels repeating the last |
| Resampler.Mix | nitrogen/src/audio.rs:123-165 | min(capacity, ceiling) frames, every sample from its source position, the rest of the output untouched |
| Resampler.OutputFramesIsExactIff | nitrogen/src/audio.rs:169-177 | output_frames is the exact ceiling if and only if in_frames * out_rate <= (2^64 - 1) * in_rate |
| Resampler.AnnouncedSizeSufficesIff | nitrogen/src/audio.rs:123-177 | on the same condition, and only then, mix writes every frame into a buffer of the announced size and no buffer size tells the two numbers apart |
| Resampler.OutputFramesCanTruncateToZero | nitrogen/src/audio.rs:169-177 | a concrete input with announced size 0 |
| Scheduler.ScheduleInv | fullerene-kernel/src/scheduler_context.rs:205-260 | from at most one running process, scheduling leaves exactly one, at the schedule index |
| Scheduler.StepInv | fullerene-kernel/src/scheduler_context.rs:105-298 | create, schedule, yield, block, unblock, terminate and a fault leave the process at the schedule index running, or idle with the turn and marked ready; without a fault exactly one keeps running |
| Scheduler.RunInv | fullerene-kernel/src/scheduler_context.rs:105-298 | the same over every run in which idle neither blocks nor faults |
| Scheduler.TerminateInv | fullerene-kernel/src/process.rs:660-716 | terminating any process, the running one or idle included, keeps both |
| Scheduler.OneRunningOverEveryRun | fullerene-kernel/src/scheduler_context.rs:178-284 | in every reachable state, fault recovery included, whoever runs is at the schedule index under the current id, and if nobody runs idle has the turn; without faults exactly one runs |
| Scheduler.ScheduleApproaches | fullerene-kernel/src/scheduler_context.rs:205-260 | a scheduling call either picks a ready process or comes strictly closer to it |
| Scheduler.StepApproaches | fullerene-kernel/src/scheduler_context.rs:105-298 | no step but a fault moves the turn away from a waiting process |
| Scheduler.FaultApproaches | fullerene-kernel/src/interrupts/exceptions.rs:107-146 | a fault gives a waiting process the turn or lowers its rank, although it may move the process to the position the scan starts behind |
| Scheduler.StepServes | fullerene-kernel/src/scheduler_context.rs:105-298 | after any step a waiting process has the turn, has ended, or waits on with its rank lowered by the calls made |
| Scheduler.WaitIsBounded | fullerene-kernel/src/scheduler_context.rs:205-260 | while a process waits, fewer scheduling calls happen than its rank, and without faults than its distance in the list |
| Scheduler.ServedWithin63Calls | fullerene-kernel/src/scheduler_context.rs:205-284 | a process that waits has had the turn or has ended by the 63rd scheduling call, whatever is created, blocked, unblocked or terminated meanwhile |
| Scheduler.ServedDespiteFaults | fullerene-kernel/src/interrupts/exceptions.rs:107-146 | with faults in between it has by the 4095th |
| Scheduler.CleanupShape | fullerene-kernel/src/scheduler_context.rs:178-181 | where cleanup leaves the running process, and when that is still the schedule index |
| Scheduler.CleanupKeepsInvIff | fullerene-kernel/src/scheduler_context.rs:178-181 | cleanup keeps the invariant exactly when nothing before the running process had ended |
| Scheduler.CleanupThenScheduleIff | fullerene-kernel/src/scheduler_context.rs:178-260 | one process runs after cleanup and scheduling exactly when nothing had ended before the running one or nothing survives behind it |
| Scheduler.FaultRecoveryIff | fullerene-kernel/src/interrupts/exceptions.rs:107-146 | a fault keeps exactly one process running, at the index and under the current id, if and only if somebody besides idle survives; otherwise idle has the turn and stays marked ready |
| Scheduler.FaultInv | fullerene-kernel/src/interrupts/exceptions.rs:107-146 | fault recovery keeps the weaker invariant |
| Scheduler.CleanupReachesTwoRunning | fullerene-kernel/src/scheduler_context.rs:178-260 | a reachable state in which cleanup and schedule_next leave two processes running |
| Scheduler.FaultReachesNoneRunning | fullerene-kernel/src/interrupts/exceptions.rs:107-146 | a run with one fault after which idle alone is left, ready, and nobody runs |
| Scheduler.SchedulerContext.constructor | fullerene-kernel/src/process.rs:477-543 | the idle process alone and running |
| Scheduler.SchedulerContext.Add | fullerene-kernel/src/scheduler_context.rs:105-118 | appends below 64 processes, refuses otherwise |
| Scheduler.SchedulerContext.Scan | fullerene-kernel/src/scheduler_context.rs:219-232 | the wrapping scan finds the first ready process after the start |
| Scheduler.SchedulerContext.ScheduleNextProcess | fullerene-kernel/src/scheduler_context.rs:205-260 | the scheduling step of `ProcessStates.TurnGoesToNearest` and `ScheduleStates`, with the previous and the chosen id |
| Scheduler.SchedulerContext.BlockCurrentProcess | fullerene-kernel/src/scheduler_context.rs:263-275 | the call is `BlockCurrent`, and `ProcessStates.BlockStates` states its effect on every process: the one that had the turn Blocked, the next Running, no other changed |
| Scheduler.SchedulerContext.YieldCurrent | fullerene-kernel/src/scheduler_context.rs:287-298 | the call is the scheduling step of `ProcessStates.ScheduleStates` |
| Scheduler.SchedulerContext.UnblockProcess | fullerene-kernel/src/scheduler_context.rs:278-284 | only a blocked process with this id becomes ready |
| Scheduler.SchedulerContext.TerminateProcess | fullerene-kernel/src/process.rs:660-716 | the termination of `ProcessStates.TerminateStates`, waiting parents woken |
| Scheduler.SchedulerContext.RecoverFromFault | fullerene-kernel/src/interrupts/exceptions.rs:107-146 | mark, clean up and schedule are the fault of `ProcessStates.FaultStates` |
| ProcessStates.TurnGoesToNearest | fullerene-kernel/src/scheduler_context.rs:205-260 | the turn goes to the nearest ready process in the round, the current one last, and to idle when none is ready |
| ProcessStates.ScheduleStates | fullerene-kernel/src/scheduler_context.rs:205-260 | scheduling and yielding: the old process is ready, the chosen one runs, every other keeps its state |
| ProcessStates.BlockStates | fullerene-kernel/src/scheduler_context.rs:263-275 | the process that had the turn is blocked, another one runs, every other keeps its state |
| ProcessStates.UnblockStates | fullerene-kernel/src/scheduler_context.rs:278-284 | a blocked process with this id becomes ready; nothing else changes |
| ProcessStates.TerminateStates | fullerene-kernel/src/process.rs:660-716 | the process has ended unless it is idle, blocked waiters and a blocked parent are ready, the turn goes on if it had it; every other keeps its state |
| ProcessStates.CreateStates | fullerene-kernel/src/scheduler_context.rs:105-118 | one ready process under a new id while there is room; every other keeps its state |
| ProcessStates.AddMeans | fullerene-kernel/src/scheduler_context.rs:105-118 | refused exactly when the table is full; otherwise last in the list and the only one with its id |
| ProcessStates.FaultStates | fullerene-kernel/src/interrupts/exceptions.rs:107-146 | the faulting process and every ended one are gone, the turn is another's, every other keeps its state |
| ProcessStates.StepSleeps | fullerene-kernel/src/scheduler_context.rs:105-298 | no step wakes a blocked process but one that names it |
| ProcessStates.BlockedUntilWoken | fullerene-kernel/src/scheduler_context.rs:263-285 | over every run a process that blocks is neither ready nor running nor at the index until it is unblocked or a process ends that lists it as waiter or parent |
| KeyWrap.UnwrapOfWrapStep | bonder/src/wpa.rs:674-689 | one unwrap step undoes one wrap step of section 2.2.1 of RFC 3394 |
| KeyWrap.WrapOfUnwrapStep | bonder/src/wpa.rs:674-689 | and the other way round |
| KeyWrap.RowsAreInverse | bonder/src/wpa.rs:674-689 | so do whole rows, in opposite orders |
| KeyWrap.AllRowsAreInverse | bonder/src/wpa.rs:674-689 | so do all six rows |
| KeyWrap.UnwrapUndoesWrap | bonder/src/wpa.rs:657-698 | unwrapping a wrapped key returns the key, for every block permutation and every length from two blocks |
| KeyWrap.OnlyWrapsUnwrap | bonder/src/wpa.rs:657-698 | unwrapping returns a key exactly when the input is the wrap of that key |
| KeyWrap.DigitsAreNumber | bonder/src/wpa.rs:676-679 | the counter bytes of the reference are those of the number, most significant first |
| KeyWrap.WrapIsRfcWrap | bonder/src/wpa.rs:657-698 | wrapping is the shifting-register form of section 2.2.1 of RFC 3394, written independently: 6n steps, initial value A6 eight times, the step number into the left register |
| KeyWrap.UnwrapsRfcWraps | bonder/src/wpa.rs:657-698 | unwrapping returns a key exactly for what that reference makes of the key |
| KeyWrap.XorCounterInto | bonder/src/wpa.rs:676-679 | the byte loop exclusive-ors the big-endian step counter |
| KeyWrap.UnwrapOneRow | bonder/src/wpa.rs:675-688 | the inner reverse loop is one row |
| KeyWrap.AesKeyUnwrap | bonder/src/wpa.rs:657-698 | the nested reverse loops with their length and integrity checks return a key if and only if the input is what the shifting registers of section 2.2.1 of RFC 3394 make of it; any other input is refused |
| Cpio.HexRoundTrip | fullerene-kernel/build.rs:653-656 | a number written with w hexadecimal digits has w of them and is read back |
| Cpio.ParseHex | fullerene-kernel/src/initramfs.rs:26-40 | the accumulating loop is the value of the digits, none for a bad digit or a field past the end |
| Cpio.Align4 | fullerene-kernel/src/initramfs.rs:42-45 | the least multiple of four from n on |
| Cpio.Pad | fullerene-kernel/build.rs:608-622 | the padding loop reaches the next multiple of four with zero bytes |
| Cpio.WriteHeader | fullerene-kernel/build.rs:590-603 | the magic and thirteen fields, appended |
| Cpio.WriteFile | fullerene-kernel/build.rs:582-623 | header, name, padding, body, padding |
| Cpio.WriteTrailer | fullerene-kernel/build.rs:625-651 | the trailer entry |
| Cpio.FieldsLayout | fullerene-kernel/build.rs:590-603 | field k stands at bytes 8k to 8k+8 behind the magic |
| Cpio.ParseEntry | fullerene-kernel/src/initramfs.rs:66-125 | on arbitrary bytes everything reported lies inside the data and at least 110 bytes further on |
| Cpio.EntryRoundTrip | fullerene-kernel/src/initramfs.rs:66-125 | one written entry is read with its name, mode and body, and the next offset is where the writer stopped |
| Cpio.ArchiveReadsBack | fullerene-kernel/src/initramfs.rs:132-175 | a written archive reads back up to the first entry called TRAILER!!! |
| Cpio.ArchiveRoundTrip | fullerene-kernel/src/initramfs.rs:132-175 | with no such entry, all names, modes and bodies come back in order and then the trailer, whatever follows |
| Cpio.ArchiveRoundTripIff | fullerene-kernel/src/initramfs.rs:66-175 | entries whose fields fit all come back, followed by the trailer, if and only if none is called TRAILER!!! and no directory has a body |
| Cpio.DirectoryReadsEmpty | fullerene-kernel/build.rs:582-623 | a directory is read back with an empty body, whatever was written for it |
| Cpio.DirectoryBodyDerails | fullerene-kernel/build.rs:582-623 | what then happens to a body of six bytes or more that does not start with the magic: reading ends inside it |
| Cpio.Unpack | fullerene-kernel/src/initramfs.rs:132-175 | the loop requests one directory or file per entry read and counts them |
| Cpio.UnpackRecreates | fullerene-kernel/src/initramfs.rs:132-175 | unpacking a written archive recreates every entry in order |
| Newc.EntryLayout | fullerene-kernel/build.rs:582-623 | byte by byte: magic, thirteen fields of eight hexadecimal digits each at its place, name, NUL, zeros to a multiple of four, body, zeros |
| Newc.TrailerLayout | fullerene-kernel/build.rs:625-651 | the trailer byte by byte |
| Newc.ReaderLayout | fullerene-kernel/src/initramfs.rs:66-125 | on any bytes read as an entry: which bytes every value comes from, and where name, body and next entry begin |
| Newc.ReadsIff | fullerene-kernel/src/initramfs.rs:67-108 | bytes are read as an entry if and only if they have the magic, digits in eleven fields, a UTF-8 name and room for name and body, each up to a multiple of four |
| Newc.FieldReads | fullerene-kernel/src/initramfs.rs:26-40 | a field has the value v if and only if the eight digits of v stand there, in either case |
| Newc.EntryAsks | fullerene-kernel/src/initramfs.rs:143-168 | an entry asks for a directory or a file by its type bits, under its name behind the leading slashes, and for nothing when that is empty or two dots stand side by side in it |
| Utf8.EncodedIsValid | fullerene-kernel/src/initramfs.rs:94-96 | every encoding of Unicode scalar values by section 3 of RFC 3629 is accepted |
| Utf8.ValidIsEncoded | fullerene-kernel/src/initramfs.rs:94-96 | whatever is accepted is such an encoding |
| Unpacking.ParentGoal | fullerene-kernel/src/initramfs.rs:182-193 | parent_of leads to the same names or to all but the last, for any relative path without ".." |
| Unpacking.PerformShows | fullerene-kernel/src/initramfs.rs:143-168 | one entry changes what the system shows exactly as expected for all names, whatever is there already: parent made when missing, old file or empty directory replaced, or nothing |
| Unpacking.FileShownIff | fullerene-kernel/src/initramfs.rs:154-168 | a file entry shows its body afterwards, and any file at all, if and only if its place is free or removable, below a directory or one it makes; the condition speaks only of what is shown before |
| Unpacking.PerformRefused | fullerene-kernel/src/initramfs.rs:154-168 | an entry for names that show nothing, not placeable and making no parent, leaves the whole system as it was |
| Unpacking.OthersKeep | fullerene-kernel/src/initramfs.rs:143-168 | entries under other names leave a file's body alone |
| Unpacking.EntriesSound | fullerene-kernel/src/initramfs.rs:143-149 | every path that passes the checks of the loop is relative and has no ".." component |
| Unpacking.UnpackedReadableIff | fullerene-kernel/src/initramfs.rs:132-175 | from entries through the written archive into any mounted system: a file entry that no later one replaces shows its body if and only if it was placeable when its turn came |
| Unpacking.PlacedIff | fullerene-kernel/src/initramfs.rs:154-168 | one entry followed by others that put no file under its names: its body is shown in the end if and only if it was placeable |
| Initramfs.PerformAgrees | fullerene-kernel/src/initramfs.rs:143-168 | on a system with one mount, one entry is one step on a map from names to nodes |
| Initramfs.PerformAllAgrees | fullerene-kernel/src/initramfs.rs:132-175 | so is the whole loop |
| Initramfs.BootShows | fullerene-kernel/src/initramfs.rs:132-175 | for every archive: what the booted system shows under every list of names is what the entries make of an empty map |
| Initramfs.OrderedListed | fullerene-kernel/src/initramfs.rs:154-168 | entries with names of their own, each below a known directory or one level under one, all arrive |
| Initramfs.BootFilesReadable | fullerene-kernel/src/initramfs.rs:132-175 | so from such an archive every file is readable after boot with its own body |
| Ports.PortPlaces | fullerene-kernel/build.rs:558-580 | the names of the three entries of a port |
| Ports.PortArchiveIsLost | fullerene-kernel/build.rs:558-580 | into any system where `packages` is not a directory, with whatever else it holds and has mounted elsewhere, unpacking the archive of the build script changes nothing at all |
| Ports.BootLosesPorts | fullerene-kernel/build.rs:190-200 | so after boot into the empty system not one port of that archive is there |
| Ports.PortShownIff | fullerene-kernel/src/initramfs.rs:154-168 | on any system, of ports new to it each shows its binary after unpacking if and only if `packages` was a directory before |
| Checksum.FoldIsResidue | bonder/src/ipv4.rs:129-145 | folding carries computes the residue modulo 0xFFFF, with 0xFFFF for a non-zero multiple |
| Checksum.SumAppend | bonder/src/ipv4.rs:129-145 | word sums add over even-length pieces |
| Checksum.AccumulatorSafeIff | bonder/src/ipv4.rs:129-145 | the 32-bit accumulator cannot overflow exactly for inputs up to 131074 bytes |
| Checksum.Accumulate | bonder/src/ipv4.rs:130-139 | the word loop with its odd tail adds the word sum modulo 2^32 |
| Checksum.FoldCarries | bonder/src/ipv4.rs:141-143 | the carry loop is the fold |
| Checksum.ComputeChecksum | bonder/src/ipv4.rs:129-145 | the complement of the folded sum, exact up to 131074 bytes |
| Checksum.ComputeUdpChecksum | bonder/src/udp.rs:69-123 | three loops over three buffers give the checksum of the concatenation, all ones in place of zero |
| Checksum.DatagramVerifies | bonder/src/udp.rs:129-156 | every datagram, odd or even, sums with its pseudo-header to 0xFFFF |
| Checksum.UdpHeaderLayout | bonder/src/udp.rs:129-156 | source port, destination port, length and checksum, big-endian, at bytes 0, 2, 4 and 6 |
| Checksum.PseudoHeaderLayout | bonder/src/udp.rs:69-123 | source, destination, zero, 17 and length at bytes 0, 4, 8, 9 and 10 |
| Checksum.IpHeaderLayout | bonder/src/ipv4.rs:154-182 | every field of the IPv4 header at its byte |
| Checksum.BuildDatagram | bonder/src/udp.rs:129-156 | none exactly when too long for the field or the buffer; otherwise ports, length and payload at their bytes of the buffer, a checksum that verifies and is not 0, the rest of the buffer untouched |
| Checksum.UnswappedHeaderVerifies | bonder/src/ipv4.rs:154-182 | with the checksum bytes in order an IPv4 header would always verify |
| Checksum.SentHeaderVerifiesIff | bonder/src/ipv4.rs:154-182 | as sent, converted to big endian twice, it verifies exactly when the two checksum bytes are equal |
| Checksum.SentHeaderCanFail | bonder/src/ipv4.rs:154-182 | a family of headers that do not verify |
| Checksum.EmptyPacketInFamily | bonder/src/ipv4.rs:154-182 | the empty packet with identification 0, time to live 64, protocol 17 and zero addresses is in that family |
| Checksum.BuildPacket | bonder/src/ipv4.rs:154-182 | none exactly when too long; otherwise every header field and the payload at their bytes of the buffer, the checksum bytes swapped |
| Timers.ChronoLine.constructor | chronoline/src/lib.rs:97-111 | no timers, clock at 0 |
| Timers.ChronoLine.RegisterWithModeAndPolicy | chronoline/src/lib.rs:136-157 | refuses a zero interval, otherwise adds one timer |
| Timers.ChronoLine.Tick | chronoline/src/lib.rs:163-165 | the clock never goes back |
| Timers.ChronoLine.HasExpired | chronoline/src/lib.rs:205-209 | true exactly when some timer is due |
| Timers.ChronoLine.PopExpired | chronoline/src/lib.rs:171-203 | none exactly when nothing is due; otherwise a timer that no other precedes by deadline and then id, removed or replaced by its rescheduled form |
| Timers.ChronoLine.Cancel | chronoline/src/lib.rs:223-231 | removes all timers of one id and no other, and says whether there was one |
| Timers.RateKeepsPhase | chronoline/src/lib.rs:177-200 | a fixed-rate timer moves to the least point of its grid after now, or saturates |
| Timers.RescheduledAfterNow | chronoline/src/lib.rs:177-200 | a rescheduled timer is due after now, before the last tick |
| Timers.TraceCounts | chronoline/src/lib.rs:171-203 | what has been popped so far was due at the start, each as often as it was there |
| Timers.TraceSorted | chronoline/src/lib.rs:75-82 | timers come out in (deadline, id) order |
| Timers.DrainReturnsTheExpired | chronoline/src/lib.rs:171-203 | before the last tick, draining is over exactly when the timers due at the start have come out, each once |
| Timers.PopsForever | chronoline/src/lib.rs:171-203 | at the last tick a repeating timer can be popped any number of times |
| Timers.DrainTerminatesIff | chronoline/src/lib.rs:171-203 | draining terminates exactly when the clock is below u64::MAX or no timer repeats |
| Timers.RunKeepsPhase | chronoline/src/lib.rs:163-203 | over every run that ends before u64::MAX a fixed-rate timer is as many grid points on as the missed counts add up to, or waits at u64::MAX |
| Timers.MissedCountsAddUp | chronoline/src/lib.rs:163-203 | when nothing is due at the end, the uncapped missed counts add up to the grid points passed |
| Timers.PoppedReports | chronoline/src/lib.rs:171-203 | the timer handed out is the one that was due; its missed count is the number of its grid points reached, deadline included, up to the cap |
| Timers.LeftInQueue | chronoline/src/lib.rs:177-200 | what stays in the queue: the least grid point after now for fixed rate, an interval after now for fixed delay, nothing missed |
| Timers.ReportedCountsAddUp | chronoline/src/lib.rs:163-203 | over every run the counts actually handed out for a timer without a cap add up to the grid points passed |
| Editor.JoinInjective | lattice/src/editor.rs:91-105 | the flat text determines the rows |
| Editor.StateDetermined | lattice/src/editor.rs:66-78 | text and offset determine rows and cursor |
| Editor.InsertRefines | lattice/src/editor.rs:235-249 | inserting in the rows is inserting one byte in the flat text, newline included |
| Editor.BackspaceRefines | lattice/src/editor.rs:252-267 | backspace removes the byte before the offset, a newline when rows join |
| Editor.DeleteRefines | lattice/src/editor.rs:270-283 | delete removes the byte at the offset |
| Editor.OffsetEnds | lattice/src/editor.rs:130-162 | offset 0 and the end of the text are the first and the last cursor position |
| Editor.BackspaceUndoesInsert | lattice/src/editor.rs:235-267 | inserting any byte and pressing backspace restores rows and cursor |
| Editor.ClampsAgreeIff | lattice/src/editor.rs:292-345 | the two scroll clamps agree exactly when the sum the second one forms does not overflow: row + height below 2^64 if the cursor is above the view, scroll + height other than 2^64 if not |
| Editor.ClampsShowCursor | lattice/src/editor.rs:292-345 | either clamp keeps the cursor in view, for every viewport height |
| Editor.ClampMovesLeast | lattice/src/editor.rs:292-345 | no view that shows the cursor and ends with the text is nearer to the old one |
| Editor.FromTextRoundTrip | lattice/src/editor.rs:91-105 | loading a text and joining the rows gives it back exactly when it has no CR LF |
| Editor.FullTextIsJoinIff | lattice/src/editor.rs:355-364 | the saved text is the flat text exactly when every row is UTF-8 |
| Editor.EditorBuffer.constructor | lattice/src/editor.rs:91-105 | rows of the text, cursor at 0 |
| Editor.EditorBuffer.InsertChar | lattice/src/editor.rs:235-249 | one byte inserted at the offset, the offset one further |
| Editor.EditorBuffer.Backspace | lattice/src/editor.rs:252-267 | the byte before the offset removed, nothing at offset 0 |
| Editor.EditorBuffer.DeleteChar | lattice/src/editor.rs:270-283 | the byte at the offset removed, nothing at the end |
| Editor.EditorBuffer.CursorLeft | lattice/src/editor.rs:130-145 | back by one character, or by the newline at the start of a row |
| Editor.EditorBuffer.CursorRight | lattice/src/editor.rs:148-162 | forward by one character, or to the start of the next row from the end of a row and from any column of a row that is not UTF-8 |
| Editor.EditorBuffer.MoveRows | lattice/src/editor.rs:165-230 | the row moves by up to the count, the column is cut to the new row |
| Editor.EditorBuffer.ClampScroll | lattice/src/editor.rs:324-328 | the view never starts below the cursor |
| Editor.EditorBuffer.EnsureCursorVisible | lattice/src/editor.rs:331-345 | the cursor row is in view afterwards, sums wrapping at 2^64 |
| Handles.AllocInv | fullerene-kernel/src/process.rs:182-214 | allocation keeps generation and allocation count in step and issues apart |
| Handles.RemoveInv | fullerene-kernel/src/process.rs:247-260 | so does removal |
| Handles.RunInv | fullerene-kernel/src/process.rs:182-260 | so does every run |
| Handles.ResolvesIff | fullerene-kernel/src/process.rs:233-244 | with at most 256 slots an issued handle resolves exactly when its slot is occupied and was reallocated a multiple of 256 times since |
| Handles.HandlesOverEveryRun | fullerene-kernel/src/process.rs:182-260 | over every run a live handle resolves to its object, live handles differ, and a dead one resolves to nothing for 256 reallocations |
| Handles.RemoveEndsLife | fullerene-kernel/src/process.rs:247-260 | a removed handle no longer resolves |
| Handles.FreshHandleResolvesIff | fullerene-kernel/src/process.rs:182-200 | a fresh handle reaches its own slot exactly when one of the first 256 slots was free |
| Handles.HandleOfSlot256Aliases | fullerene-kernel/src/process.rs:199 | in a full table of 256 slots the next handle reaches the object in slot 0 |
| Handles.Allocation257Aliases | fullerene-kernel/src/process.rs:182-214 | such a table is reached: the handle of the 257th allocation from an empty table reaches the first object |
| Handles.HandleTable.constructor | fullerene-kernel/src/process.rs:175-179 | no slots |
| Handles.HandleTable.FindFreeSlot | fullerene-kernel/src/process.rs:202-214 | the first free slot, or one more at the end |
| Handles.HandleTable.Alloc | fullerene-kernel/src/process.rs:182-200 | the slot filled under the next generation, and its handle |
| Handles.HandleTable.Lookup | fullerene-kernel/src/process.rs:233-244 | an object exactly for an authentic handle of the right generation |
| Handles.HandleTable.Remove | fullerene-kernel/src/process.rs:247-260 | the object, and its slot emptied |
| BlockIo.SpanFacts | fullerene-kernel/src/devfs.rs:87-141 | the blocks moved cover what is copied, by less than one block too much, and at least one byte is copied |
| BlockIo.InRangeFacts | fullerene-kernel/src/devfs.rs:87-141 | on a disk of whole blocks the driver's range check is the byte range check |
| BlockIo.ReadModifyWrite | fullerene-kernel/src/devfs.rs:159-226 | patching the block image and writing it back is patching the disk |
| BlockIo.WriteAllIsSplice | fullerene-kernel/src/devfs.rs:144-227 | repeating the call succeeds exactly when the data fits, and equals one splice despite the 64-block cap |
| BlockIo.ReadAllIsSlice | fullerene-kernel/src/devfs.rs:73-142 | repeating the read delivers the whole range exactly when it lies on the disk |
| BlockIo.DevFs.Read | fullerene-kernel/src/devfs.rs:73-142 | the bytes of the disk at the offset, at least one for a non-empty buffer, the rest of the buffer untouched; each error case |
| BlockIo.DevFs.BlockImage | fullerene-kernel/src/devfs.rs:178-184 | the blocks read back with the data patched in, or the data alone when it fills them |
| BlockIo.DevFs.Write | fullerene-kernel/src/devfs.rs:144-227 | exactly the bytes at the offset change, at least one for non-empty data; errors change nothing |
| UserMemory.CStringIsDecode | fullerene-kernel/src/user_memory.rs:31-86 | when the pages up to the terminator are mapped, copying is decoding the first max_len bytes in one piece |
| UserMemory.ScanIsLocal | fullerene-kernel/src/user_memory.rs:56-86 | the result depends on no page beyond the one where the scan stops |
| UserMemory.CStringMeans | fullerene-kernel/src/user_memory.rs:56-86 | memory at the pointer begins with one text up to the limit, an unreadable byte or a NUL; which result each of the four cases gives |
| UserMemory.ChunkAddress | fullerene-kernel/src/user_memory.rs:31-34 | a chunk up to the page end stays in its page, address wrap-around included |
| UserMemory.ScanChunk | fullerene-kernel/src/user_memory.rs:66-83 | skipping a chunk without NUL is skipping its bytes one by one |
| UserMemory.CopyCString | fullerene-kernel/src/user_memory.rs:56-86 | the page-chunked loop gives the byte-by-byte result in every case, errors included, and validates no later page |
| Calendar.ReadRtcMicros | fullerene-kernel/src/scheduler.rs:27-64 | none exactly for a missing, out-of-range or negative time, otherwise the seconds in microseconds |
| Calendar.NextDayCounts | fullerene-kernel/src/scheduler.rs:37-63 | one day further in the calendar adds one to the closed form, leap rules included |
| Calendar.ClosedFormAfter | fullerene-kernel/src/scheduler.rs:37-63 | n days after 1970-01-01 the closed form says n |
| Calendar.ClosedFormCountsDays | fullerene-kernel/src/scheduler.rs:37-63 | for every valid date from 1970 on the closed form is the number of days stepped |
| Calendar.DaysAscendIff | fullerene-kernel/src/scheduler.rs:37-63 | an earlier date has exactly the smaller day number |
| Calendar.MicrosFollowTime | fullerene-kernel/src/scheduler.rs:37-63 | microseconds increase strictly with date and time, both ways |
| Calendar.OverhangingDayCollides | fullerene-kernel/src/scheduler.rs:33-63 | an accepted day past the end of its month gets the number of a real date in the next month |
| Calendar.UniqueIffValid | fullerene-kernel/src/scheduler.rs:33-63 | among accepted dates those whose number no other real date has are exactly the valid ones |
| Calendar.NextSecondCounts | fullerene-kernel/src/scheduler.rs:37-63 | one second further, over the end of a minute, hour, day, month or year, adds one |
| Calendar.SecondsCount | fullerene-kernel/src/scheduler.rs:37-63 | n seconds after midnight of 1970-01-01 the conversion says n |

## Left out

- Weak memory: the queue's loads and stores are steps of one total order, so what Acquire and Release must provide is assumed, not derived.
- SpscQueue.BufferQueue.ResetQueue: takes effect only when both sides are idle, the condition its documentation demands of callers.
- Timers: the binary heap is an interface that yields some first timer; counts handed out are summed for timers without a cap; `next_id` and `reset_now` are not modelled.
- Timers.MissedCountsAddUp: for runs in which the timer's id is neither registered again nor cancelled.
- Scheduler: runs start with idle first in the list and never let idle block or fault, since idle runs in the kernel; context switching, the vDSO page and process resources are not modelled.
- Slab: the frame allocator is an interface that yields page-aligned frames not in use; the outer lock, the lazy creation of the caches, and clients that free what they do not hold or under another size are not modelled.
- KeyWrap: AES is an arbitrary permutation of 16-byte blocks; the four-way handshake around it is not modelled.
- FileSystem: memory exhaustion, `readdir`, `exists`, `position` and `size` are not modelled; inode numbers do not overflow 64 bits; descriptor numbers wrap at 2^32 as in a release build.
- Symbolic links: the walker is defined, and shown to end, for arbitrary link targets, but no operation creates one, so the theorems speak of trees without links.
- Mounts: mounted file systems are opaque there, the outcome of the one directory listing a call makes is a parameter.
- VirtualFs: every mounted file system is in-memory; a file system number is never mounted twice, as a mount takes its file system over.
- VfsHandles: block device leases, `copy_path`, `move_path` and `remove_path` are not modelled; `open` and `create` in halves are, the two locks of `unmount` are taken as one step.
- Unpacking: text is treated as its bytes; symbolic link entries are skipped, as the code does.
- Initramfs: one mount at the root and the working directory there; `Unpacking` and `Ports` have their theorems for any mounts.
- Handles: the MAC of a handle is a flag that only issued handles carry; permissions and the descriptor table beside it are not modelled.
- BlockIo: the storage driver is an interface that moves whole blocks or fails; device kinds other than storage are not modelled.
- UserMemory: failure to grow the result buffer is not modelled.
- Checksum.BuildPacket: on a little-endian target, the only one the system is built for.
- Editor: rendering and `visible_lines`; the four vertical moves are one method with a count; sums wrap as in a release build.
- Calendar: reading the hardware clock is a parameter.
- Boot, interrupt and paging hardware, drivers, the compositor and window manager, SHA-1, HMAC and AES internals, DHCP, the ELF loader and the build script apart from the archive writer are not modelled.
