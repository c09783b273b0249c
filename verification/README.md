# A verified model of the NT-hosted Linux file layer

The repository is a Linux personality that runs on Windows: it keeps its own
descriptors, pipes, mount table and path resolution, and asks the host only for
directory-relative operations on open handles. This project models that file
layer, and four smaller parts of the system whose correctness rests on one hard
property each, and proves what they are for.

- **The host** (`Hosts.dfy`, `Trees.dfy`, `TreeEdits.dfy`) is a tree of objects with
  parent pointers, a table of live handles, and an arbitrary script of refusals: any
  host call may fail at any time, with any errno but the EEXIST that only an existing name
  earns.
- **Paths and the walk** (`Paths.dfy`, `Spaces.dfy`, `Resolve.dfy`, `Walk.dfy`,
  `Kernel.dfy`) put the walk as the code runs it, on path text with links spliced in
  and `..` read off the text, against a resolver that knows only nodes and parent
  pointers, as section 4.13 of POSIX.1-2017 XBD describes it.
- **The operations** (`Opening.dfy`, `Rename.dfy`, `VfsOps.dfy`, `DeepPaths.dfy`,
  `Runs.dfy`) follow open, link, unlink, rename and the rest handle by handle.
- **Descriptors, pipes and system calls** (`Descriptors.dfy`, `Pipes.dfy`,
  `PipeCalls.dfy`, `Syscalls.dfy`) count references and bytes over whole runs.
- **What it comes to for a caller** (`Naming.dfy`, `Outcomes.dfy`, `Readings.dfy`): what a path
  leads to, what each operation does and answers, and what each call of a run did, read off
  directories, entries, links and descriptors alone, with none of the code's own checks.
- **Directory streams and names** (`Names.dfy`, `Dirents.dfy`, `DirStreams.dfy`).
- **The process image** (`Elf.dfy`, `ElfLoader.dfy`, `Vmas.dfy`, `Stack.dfy`).
- **The FS-access emulator** (`MovForms.dfy`, `MovDecoder.dfy`, `MovEmulator.dfy`).
- **The interrupt latch** (`Latch.dfy`), **path copying** (`CopyPath.dfy`) and **file
  times** (`Times.dfy`).

Where the C code updates something in place, the model has a class whose methods do
the same, each proved against a function of its inputs or its old state; what those
functions mean is proved in lemmas beside them.

To check everything: `dafny verify dfyconfig.toml` with Dafny 4.11.

## What does not hold as one would expect

Each of these is stated in the files with the input that shows it and the exact
condition under which the expected property holds.

- **A name that does not fit behind its directory.** `vfs_unlink` and `vfs_rename`
  ignore the result of `path_join` (core/vfs.c:882, 915-916) and go on with a buffer
  that was never written. `VfsOps.UnlinkUndefined` and `VfsOps.RenameUndefined` give the
  exact condition, `DeepPaths.UndefinedIsReached` an ordinary tree in which it is met.
  On every other call, on any host, `VfsOps.Vfs.Unlink`, `VfsOps.Vfs.Rename` and
  `VfsOps.Vfs.Link` keep all they promise; a run of `Runs.Run` or `Syscalls.System.Run` ends
  early only in a moment in which its next call is one of these.
- **A slash at the end of a link's target.** POSIX demands a directory there; the walk
  demands one only for a slash at the end of the caller's own path.
  `Walks.StrictGap` says exactly when the walk and the POSIX reading differ,
  `Resolution.SlashWitness` shows a tree.
- **A slash behind a name.** mkdir, unlink, rename and the other operations on a name take
  `f/` for `f`, where POSIX demands a directory: `Naming.ParentIgnoresSlash`. Everywhere else
  a slash at the end of the caller's path is a demand: `Naming.SlashNamesDir`.
- **A late latch.** An interrupter that looked at the flag while the thread was in the
  gate may store its latch after the thread has left: `Latch.LateLatch`. It is taken at
  the next exit (`Latch.FirstExitTakes`); `Latch.QuietExactly` says after which exits user
  code stays without a latch whatever comes: exactly those at which no interrupter has its
  store still to do.
- **Times before 1970.** C division rounds them toward zero, so a time with a fraction
  of a second comes back in a later second: `Times.RoundTripExactly`,
  `Times.BeforeTheEpoch`. -1 ns and -2 ns are the sentinels: `Times.SentinelsExactly`.
- **Names with a character from U+F000 to U+F0FF** are not listed under the name they
  were made with: `Names.RoundTrip`, `Dirents.ListedAsNamed`.
- **`O_CREAT | O_EXCL` on a path of slashes only, or one that ends in `.` or `..`** opens
  the existing directory where POSIX demands EEXIST: `Openings.ExclusiveOpens` gives the
  condition, `Openings.ExclusiveOpensRoot` the path `/`. The comment at core/vfs.c:667-668
  names mount points as well, but a walk to a parent returns before it looks for one
  (core/vfs.c:374-387): with O_CREAT a mount point as last component stands for the name in
  the directory beneath it.
- **A `getdents` that ends early.** After a first call with room for `.` only, a second one
  with less than 24 bytes answers 0 with the whole rest of the directory still to come:
  `DirStreams.EarlyZero`. The last clauses of `DirStreams.DirStream.GetDents` say exactly
  when a call answers 0.
- **Moves the processor would refuse.** The decoder skips a LOCK prefix and takes C6 and C7 with
  any register field, which the processor refuses to execute, so that no fault of its own comes
  of them. `MovDecoder.ReadsExactly` says exactly which byte strings are decoded.
- **GS after FS.** The decoder takes an access for FS if 0x64 is anywhere among its
  prefixes; the processor obeys the last override. The two differ exactly when GS comes
  after FS: `MovEmulator.FsFormsAreHandled`, `MovEmulator.GsAfterFs`.

## Model

| member | source | states |
|---|---|---|
| `Paths.ParentDropsLast` | core/vfs.c:23-28 | on canonical paths, cutting at the last slash drops exactly the last component, and what is behind it is that component |
| `Paths.JoinAppends` | core/vfs.c:30-43 | a joined path is canonical with the name as its last component, and the size test refuses exactly the results that do not fit a path buffer |
| `Paths.HitIsPrefix` | core/vfs.c:45-62 | a mount point's textual test on a path is the component-wise prefix test, and the relative path is the rest of the components |
| `Walks.LongestHitIsBest` | core/vfs.c:55-68 | among the mount points that hit a path as text, the longest is the longest component-wise prefix |
| `Kernels.FileSystem.MountOf` | core/vfs.c:55-68 | the loop ends on that mount, and its point joined with the relative path is the path again |
| `Kernels.FileSystem.OpenStep` | core/vfs.c:243-256 | one component down from the directory at a path beneath a seat, to the one at the longer path; the handle before it is let go, and a link or a file is refused |
| `Kernels.FileSystem.OpenHostDir` | core/vfs.c:232-258 | the directory at a canonical path beneath a mount, or the error of the first component that fails; every intermediate handle is closed |
| `Kernels.FileSystem.StatAbs` | core/vfs.c:267-301 | the node at a canonical path across all mounts, whatever the host refuses on the way answering an error and leaving no handle |
| `Kernels.FileSystem.Walk` | core/vfs.c:328-422 | the loop over the host, with its stats and readlinks, answers what the walk over the text decides or passes on a host refusal; a location lies on the longest mount, canonical and within the buffers; nothing is left open |
| `Walks.WalkAgrees` | core/vfs.c:328-422 | for every tree, mount table, start directory, path and flags, the walk by text answers the canonical path of the very node the parent-pointer resolver reaches, all whose proper prefixes are directories, or the same error; only ENAMETOOLONG is its own |
| `Walks.WalkRoomy` | core/vfs.c:346-410 | that answer is excluded for every walk that is short against the buffers, counting what forty links can add |
| `Walks.StepFits` | core/vfs.c:346-410 | each step of the walk keeps canonical text and the buffer limits, and lessens link budget or unread text, on every link graph |
| `Walks.StrictGap` | core/vfs.c:342 | the walk answers as the POSIX reading does, unless a link on its way to the answer has a target that ends in a slash and the answer is no directory |
| `Resolution.StrictExactly` | core/vfs.c:342 | the reading of trailing slashes the walk uses and the POSIX one differ exactly when a followed last link's target ends in a slash and leads to no directory |
| `Resolution.SlashAfterFile` | core/vfs.c:342 | any link to a plain file's name and a slash is such a case |
| `Resolution.SlashWitness` | core/vfs.c:342 | a tree in which it happens |
| `Naming.PathLeads` | core/vfs.c:328-422 | the walk answers what the caller's path reads as: from the root, the descriptor's directory or the working directory, at most forty links, a slash at its end standing for a further dot; only ENAMETOOLONG is its own |
| `Naming.SlashNamesDir` | core/vfs.c:415-420 | on any tree and with every flag, a path that ends in a slash leads to a directory or fails, unless only a name is wanted |
| `Naming.ParentIgnoresSlash` | core/vfs.c:355-366 | for an operation on a name a slash behind it makes no difference |
| `Naming.LinkLeads` | core/vfs.c:387-410 | a link resolves as its target does, from the root or from where the link is, with one link fewer to spend; an empty target or one of 4096 characters is ENOENT |
| `Naming.NameLimit` | core/vfs.c:352-354 | a name of 255 characters is looked for and a longer one refused |
| `TreeEdits.MoveTreeExactly` | core/vfs.c:922-938 | a rename leaves a tree if and only if it does not move a directory to itself or beneath itself |
| `TreeEdits.MoveCarriesSubtree` | core/vfs.c:935 | after a rename the new name leads to exactly what the old one led to, at every depth |
| `TreeEdits.MoveLeavesRest` | core/vfs.c:935 | every path that uses neither name leads where it did, and the old name leads nowhere |
| `TreeEdits.EditKeepsTree` | core/vfs.c:811-941 | of all edits the host store accepts, a move of a directory beneath itself is the only one a tree does not survive |
| `TreeEdits.MakeLooks` | core/vfs.c:943-988 | a new object is found under its name and everything else where it was |
| `TreeEdits.TieLooks` | core/vfs.c:834-862 | a further name leads to the same object, and everything else is where it was |
| `TreeEdits.UnmakeLooks` | core/vfs.c:864-894 | a removed name leads nowhere, every other where it did; of the objects only a directory goes with it |
| `Renames.PrefixTestExact` | core/vfs.c:922-926 | the textual test on the two names is true exactly when the target directory is the source or beneath it in the tree |
| `Renames.RenameSafe` | core/vfs.c:896-941 | what passes the checks of a rename never moves a directory beneath itself |
| `Openings.OpenAgrees` | core/vfs.c:711-766 | an open without O_CREAT takes the very node the parent-pointer resolver reaches, and fails as it fails |
| `Openings.ExclusiveOpens` | core/vfs.c:651-710 | with O_CREAT and O_EXCL an open that succeeds takes an existing object exactly when the path is nothing but slashes or its last component is `.` or `..`, and makes a file otherwise |
| `Openings.ExclusiveOpensRoot` | core/vfs.c:664-669 | `/` is such a path |
| `Openings.MadeForAnyone` | core/vfs.c:651-710 | what O_CREAT makes does not depend on any permission; an open that answers EACCES answers it to one with no permission at all, and any other is what it is with every permission |
| `Openings.OpenFits` | core/vfs.c:651-710 | the recursion through dangling links ends; the recorded path is canonical and within the buffers, or empty for a file whose name O_CREAT could not join; what is taken is what the path names, and what is made has an unused name in a directory |
| `VfsOps.Vfs.Open` | core/vfs.c:642-766 | one description more with its own handle, or nothing more at all; on any host a success takes the object the path determines, or makes the file it determines and no other; on a willing host a failure has the exact errno |
| `VfsOps.Vfs.CloseFile` | core/vfs.c:508-512 | one description less and its handle closed, no other |
| `VfsOps.Vfs.MakeNew` | core/vfs.c:811-988 | on any host mkdir, symlink and mknod add the one object where the path says, and only where the answer is success, or add nothing; on a willing host with the exact errno |
| `VfsOps.Vfs.Link` | core/vfs.c:834-862 | on any host a further name for the file the old path leads to, in the directory of the new one, on one mount, or nothing, no handle left; undefined only where the paths determine it; on a willing host the exact errno |
| `VfsOps.LinkDetermined` | core/vfs.c:834-862 | with mounts on directories no link is undefined |
| `VfsOps.Vfs.Unlink` | core/vfs.c:864-894 | on any host exactly the named entry goes, a directory only when empty, or nothing, no handle left; undefined only where the name does not fit; on a willing host the exact answer for every path and kind of object |
| `VfsOps.UnlinkUndefined` | core/vfs.c:881-884 | an unlink is undefined if and only if its walk ends on a host mount and the name does not fit behind its directory |
| `VfsOps.Vfs.Rename` | core/vfs.c:896-941 | on any host the one edit moves the old location's name to the new one's, or nothing changes; a tree stays a tree; both parent handles are closed; undefined only where a name does not fit; on a willing host the exact answer for every pair of paths |
| `VfsOps.RenameUndefined` | core/vfs.c:911-917 | a rename is undefined if and only if both walks end on one host mount and either name does not fit behind its directory |
| `DeepPaths.UndefinedIsReached` | core/vfs.c:880-916 | from a working directory of fifteen long names, unlinking a long name, and renaming the topmost directory to one, are such calls |
| `VfsOps.Vfs.SetAttr` | core/vfs.c:991-1045 | chmod, chown and utimens open and close the one object the path names; on a willing host the exact errno of opening it |
| `VfsOps.Vfs.SetFileAttr` | core/vfs.c:1047-1061 | the same by descriptor, on the description's own object, only for objects of the host |
| `VfsOps.Vfs.Truncate` | core/vfs.c:1130-1138 | a success is that of opening the path for writing, on a kind that can be truncated; on a willing host the exact errno; the description it makes is gone again |
| `VfsOps.Vfs.Chdir` | core/vfs.c:1140-1152 | on any host the working directory becomes the canonical path the walk found, or stays; on a willing host the exact errno |
| `VfsOps.Vfs.Fchdir` | core/vfs.c:1154-1159 | it becomes the recorded path of a host directory or anything of /proc, or stays |
| `VfsOps.Vfs.Stat` | core/vfs.c:768-782 | the node the walk's answer names, or the exact errno |
| `VfsOps.Vfs.Readlink` | core/vfs.c:799-809 | on any host a success is the target of the link the path names; on a willing host a failure away from mount points has the exact errno |
| `Outcomes.MakePath` | core/vfs.c:811-988 | what mkdir, symlink and mknod answer, in terms of what the path leads to: the errno of a missing parent, of a parent off the host, of an existing name, or success |
| `Outcomes.UnlinkPath` | core/vfs.c:864-894 | unlink takes away what is no directory and rmdir an empty one; each refusal has its errno: EBUSY under a mount, EISDIR, ENOTDIR, ENOTEMPTY, and for a path without a name of its own |
| `Outcomes.LinkPaths` | core/vfs.c:834-862 | link gives a file of the host a further name on its own mount that is not taken, and refuses anything else with its errno |
| `Outcomes.RenamePaths` | core/vfs.c:896-941 | what rename answers on both paths: off the host, across mounts, on a mount point, beneath itself, RENAME_NOREPLACE, directory against file and full directory, each with its errno |
| `Outcomes.RenameSucceeds` | core/vfs.c:896-941 | a rename succeeds if and only if the old name exists and the names are one, or no directory goes to or beneath itself and what is in the way is nothing, or without RENAME_NOREPLACE a file for a file or an empty directory for a directory |
| `Outcomes.OpenPath` | core/vfs.c:711-766 | an open without O_CREAT takes what the path leads to, exactly if that can be opened: a directory for reading only, a link only as itself, what is asked permitted |
| `Outcomes.OpenOnHost` | core/vfs.c:711-766 | the same for what a walk found, with the exact condition of ELOOP, EISDIR, ENOTDIR and EACCES |
| `Outcomes.OpenInKernel` | core/vfs.c:680-681 | the same in /proc and /dev |
| `Outcomes.CreatePath` | core/vfs.c:642-710 | an open with O_CREAT makes a file under an unused name, opens an existing one, or starts over at what a link there leads to, forty times at most; each refusal has its errno |
| `Outcomes.NamelessOpens` | core/vfs.c:664-671 | with O_CREAT too, a path without a name of its own opens what it leads to |
| `Outcomes.LookByTree` | core/vfs.c:768-809 | chdir goes to a directory that may be searched, stat and readlink tell of what the path leads to, chmod and its like reach any object of the host |
| `Outcomes.TruncatePath` | core/vfs.c:1130-1138 | truncate works exactly on the files of the host that may be opened for writing |
| `Runs.Do` | core/vfs.c:642-1159 | any one operation on any host leaves handles, paths and tree in order, makes the change of the tree, of the descriptions and of the working directory its paths call for with a success and none without one, and answers what its paths call for; it is undefined only where the code reads a path it could not build |
| `Runs.Run` | core/vfs.c:642-1159 | over every run, at every moment of it: the live handles are exactly the mount roots and those of descriptions, recorded paths and the working directory are canonical, the host tree stays a tree with its mounts on top directories, and each moment follows from the one before by its operation and the answer it gave; a run ends early only in a moment in which its next operation is undefined |
| `Runs.Shutdown` | core/vfs.c:127-136 | with every description closed and the mounts released nothing is left open |
| `Syscalls.System.DoOpen` | core/sys_fs.c:289-305 | a new description in the lowest free slot and nothing else moved, or none anywhere |
| `Syscalls.System.DoClose` | core/sys_fs.c:146-149 | the slot is freed; the file behind it is closed exactly when no other slot holds its description |
| `Syscalls.System.DoDup` | core/sys_fs.c:158-170 | dup2 and dup3 overwrite one slot, closing what only it held |
| `Syscalls.System.HandlesHeld` | core/sys_fs.c:146-305 | the live host handles are the mount roots and those of descriptions in some slot |
| `Syscalls.System.Run` | core/sys_fs.c:146-623 | that holds at every moment of every run of openat, close, dup, pipe2, read, write and the path calls, every description counting its slots, the host tree staying a tree and each moment following from the one before by its call and the answer it gave; a run ends early only in a moment in which its next call is undefined |
| `Readings.CallFails` | core/sys_fs.c:79-95 | in every such step a call whose descriptor is not open answers EBADF, one whose descriptor is of no directory ENOTDIR, and neither does anything; an absolute path needs no descriptor |
| `Readings.CallMeans` | core/sys_fs.c:79-95 | the one change a call made to the tree is to the names and objects its paths lead to, each from the root, the working directory or the directory of its own descriptor |
| `Readings.CallAnswers` | core/sys_fs.c:79-95 | on a host that refuses nothing the answer is read off what those paths lead to, for every path call |
| `Readings.CallDoes` | core/sys_fs.c:79-95 | a call that fails changes nothing; one that changes the tree does so with every success; only chdir moves the working directory |
| `Readings.CallReaches` | core/sys_fs.c:289-305 | what openat opened is the object its path leads to from its descriptor, and chdir goes to the directory its path leads to |
| `Readings.OpenMeans` | core/sys_fs.c:289-305 | an open that is refused is one of a path that leads nowhere, or to what cannot be opened so |
| `Syscalls.System.Exit` | core/file.c:45-54 | at the end of the process no description, ring or host handle is left |
| `Descriptors.FdTable.Put` | core/file.c:32-38 | the last reference and no other releases a description |
| `Descriptors.FdTable.Install` | core/file.c:56-69 | the lowest free slot not below the minimum, one reference more; EMFILE only when none is free |
| `Descriptors.FdTable.Close` | core/file.c:77-85 | the slot is freed with its flag, and the description goes with its last slot |
| `Descriptors.FdTable.Dup2` | core/file.c:87-98 | the slot comes to hold the other description, and the one it held loses a reference |
| `Pipes.PipeRing.DoRead` | core/sys_fs.c:192-214 | the bounce-buffer loop over the ring does what one read of a first-in-first-out queue does |
| `Pipes.PipeRing.DoWrite` | core/sys_fs.c:216-237 | the bounce-buffer loop over the ring does what one write to the queue does |
| `Pipes.PipeRing.Release` | core/vfs_synth.c:523-528 | one end less held, and the ring to be freed exactly when none is |
| `Pipes.CallsKeepFifo` | core/vfs_synth.c:477-508 | all that went in is all that came out and then what is in flight, in order |
| `Pipes.AtomicWrite` | core/vfs_synth.c:494-508 | up to 4096 bytes go in whole or not at all; a longer write is refused only by a full ring or for want of a reader |
| `Pipes.ReadHandsOut` | core/vfs_synth.c:477-492 | a read hands out the front of what is in flight, as much as is asked for and there, and its answer counts just these bytes |
| `Pipes.WriteTakesIn` | core/vfs_synth.c:494-508 | a write puts the front of the caller's own bytes in flight, as many as its answer counts, and is refused exactly for want of a reader or of room |
| `Pipes.EndOfFile` | core/vfs_synth.c:477-492 | a read of at least a byte answers 0 exactly when the ring is empty and no writer is left |
| `PipeCalls.Process.Pipe2` | core/sys_fs.c:604-623 | a fresh ring with its two descriptions in the two lowest free slots, or, after any failure, everything as it was; EMFILE exactly when no two slots are free |
| `PipeCalls.Process.Read` | core/sys_fs.c:192-214 | a read by descriptor is that read of its own pipe and touches no other |
| `PipeCalls.Process.Write` | core/sys_fs.c:216-237 | a write by descriptor is that write to its own pipe and touches no other |
| `PipeCalls.DropWired` | core/vfs_synth.c:523-528 | a ring is counted by its live descriptions and goes with the second of them |
| `PipeCalls.Run` | core/sys_fs.c:146-237 | over every run and for every pipe there ever was, what its reads handed out is, byte for byte, the beginning of what its writes were told was taken, and a live ring holds the rest; every description counts its slots, no description is released and no ring freed twice, free slots carry no flag |
| `PipeCalls.Process.ReleaseAll` | core/file.c:45-54 | every description ever made has been released and every ring freed |
| `DirStreams.DirentPack` | core/vfs.c:527-544 | one packed record behind those there, or nothing written |
| `Dirents.ParsePacked` | core/vfs.c:527-544 | a program stepping by d_reclen reads back exactly the records packed |
| `DirStreams.DirStream.DirRead` | core/hostfs_nt.c:989-1027 | the next convertible entries in host order, none lost between batches, fewer than asked only at the end |
| `DirStreams.DirStream.GetDents` | core/vfs.c:551-595 | a call returns the next of the pending records, as many as fit; nothing is lost or repeated whatever the buffer |
| `DirStreams.DirStream.Seek` | core/vfs.c:597-607 | a seek to 0 makes the whole directory pending again; no other moves |
| `DirStreams.OffsetsCount` | core/vfs.c:551-595 | d_off counts 1, 2, 3 over the whole directory and records start 8-aligned |
| `DirStreams.ReadAll` | core/vfs.c:551-595 | reading until 0 with buffers of 280 bytes and more yields `.`, `..` and every convertible entry once, in host order, and parses back to them |
| `DirStreams.EarlyZero` | core/vfs.c:551-595 | a first buffer for `.` only and a second under 24 bytes: 0 before the end |
| `Dirents.RecordsTell` | core/vfs.c:551-595 | the records are `.` with the directory's own inode, `..`, and each entry with its inode, its name and the type that stat shows of it |
| `Dirents.EntriesListed` | core/hostfs_nt.c:989-1027 | every entry is of something the host listed, and everything it lists is there |
| `Dirents.ConvertedUnless` | core/hostfs_nt.c:1006-1021 | but `.`, `..` and what has no name of at most 255 bytes |
| `Dirents.ListedAsNamed` | core/hostfs_nt.c:1006-1021 | a file is listed under the name it was made with exactly when that name has no character from U+F000 to U+F0FF |
| `Names.NameToWide` | core/hostfs_nt.c:294-326 | the loop writes the wide name when it fits the capacity and answers -1 otherwise |
| `Names.NameFromWide` | core/hostfs_nt.c:329-361 | the loop writes the UTF-8 name with its NUL when it fits and answers -1 otherwise |
| `Names.RoundTrip` | core/hostfs_nt.c:294-361 | a well-formed name of at most 255 bytes comes back from the host as it went exactly when it has no character from U+F000 to U+F0FF |
| `Names.NamesDistinct` | core/hostfs_nt.c:294-361 | no two such names meet on the host |
| `Names.NothingRefused` | core/hostfs_nt.c:294-326 | the wide name has none of the characters NTFS refuses |
| `Names.WideForm` | core/hostfs_nt.c:294-326 | the wide name is the UTF-16 of the name with just the barred characters moved up |
| `Names.ConvertsExactly` | core/hostfs_nt.c:294-326 | exactly the names made of UTF-8 sequences convert, of whatever value and length for it |
| `Names.SequenceWide` | core/hostfs_nt.c:294-326 | and each of these becomes the one or two units of its value |
| `Names.LoneBack` | core/hostfs_nt.c:329-361 | half a surrogate pair comes back as three bytes of its own |
| `Vmas.VmaTable.Record` | core/vma.c:34-66 | a range is taken exactly when it is not empty, does not wrap, meets no other and there is room; the table stays sorted and disjoint and holds the old ranges and the new one |
| `ElfLoader.AddressSpace.MapLoad` | core/binfmt_elf.c:78-117 | one segment: its file bytes, zeros for the rest of its pages, the exact protection, and nothing else changed |
| `ElfLoader.AddressSpace.Load` | core/binfmt_elf.c:119-192 | after a successful load with page-disjoint segments in clear memory every segment is loaded and nothing outside them differs, load_base and load_end are the exact hull, phdr_va lies in the first segment that covers the headers, and the range table holds the segments |
| `ElfLoader.PhdrBytes` | core/binfmt_elf.c:174-190 | phdr_va addresses the program headers' own bytes |
| `Elf.HeaderExactly` | core/binfmt_elf.c:127-141 | an image is taken for what its header says exactly if it is a little-endian 64-bit executable or shared object for x86-64 whose program headers are there, of full size and in the image |
| `Elf.SegmentRead` | core/binfmt_elf.c:143-156 | a program header is a segment exactly when it is PT_LOAD, with its own offset, sizes and flags, moved up in a shared object |
| `ElfLoader.VmaTells` | core/binfmt_elf.c:78-117 | the range recorded for a segment is its pages, and its offset the place in the file each byte came from |
| `Stacks.StartReads` | core/exec.c:87-110 | a program walking up from argc recovers argc, every argument string, both terminators and the auxiliary vector through AT_NULL |
| `Stacks.AuxFinds` | core/exec.c:102-109 | by their ABI numbers the vector tells the program headers, the page size, the entry point, the random bytes, the system call gate and the vDSO |
| `Stacks.Build` | core/exec.c:65-111 | the image is laid out so, argc on a sixteen-byte boundary and the vector below the random bytes and the strings |
| `Stacks.Planted` | substrate/substrate_n.c:607-615 | the return slot just below argc changes nothing from argc up |
| `Stacks.ExecEnter` | core/exec.c:40-128 | all of it together: what the program finds one word above its stack pointer |
| `MovDecoder.DecodeEncode` | spike/fs-base-fault/fs-fault-probe.c:233-389 | for every MOV, MOVZX and MOVSX memory form, any of the prefixes 0x26, 0x2e, 0x36, 0x3e, 0x64, 0x65, 0x66, 0xf0, 0xf2 and 0xf3 in any number and order, REX, ModRM, SIB, displacement and immediate, decoding the encoding recovers length, direction, widths, register, immediate and effective address, whatever bytes follow |
| `MovDecoder.ReadsExactly` | spike/fs-base-fault/fs-fault-probe.c:233-389 | a byte string is decoded if and only if it begins with the encoding of one of these forms: no other opcode, no register operand, no 0x67 |
| `MovEmulator.Context.Decode` | spike/fs-base-fault/fs-fault-probe.c:233-389 | the prefix loop and the fields after it read what that decoding is a function of |
| `MovEmulator.Context.Emulate` | spike/fs-base-fault/fs-fault-probe.c:391-435 | the register or the bytes that change, and nothing without a thread pointer |
| `MovEmulator.HandledExecutes` | spike/fs-base-fault/fs-fault-probe.c:391-435 | emulating what was decoded is executing the instruction with FS base equal to the thread pointer: every register, byte and the instruction pointer |
| `MovEmulator.Context.Handle` | spike/fs-base-fault/fs-fault-probe.c:437-479 | a fault is resumed if and only if it is an access violation on bytes that begin with such a form behind 0x64, past the instruction and having executed it; any other is passed on untouched |
| `MovEmulator.FsMoveRead` | spike/fs-base-fault/fs-fault-probe.c:437-479 | those are exactly the bytes the decoder reads as an FS access |
| `MovEmulator.CanaryCheckRefused` | spike/fs-base-fault/fs-fault-probe.c:281-283 | the stack protector's SUB RDX, FS:[0x28] is none |
| `MovEmulator.FsFormsAreHandled` | spike/fs-base-fault/fs-fault-probe.c:233-479 | every form behind those prefixes is decoded and taken for an FS access exactly when it carries 0x64, which is what the processor does unless a GS override follows |
| `MovEmulator.GsAfterFs` | spike/fs-base-fault/fs-fault-probe.c:233-262 | such an access |
| `MovEmulator.HighBytesRefused` | spike/fs-base-fault/fs-fault-probe.c:202-223 | behind any of those prefixes, with every operand that needs no REX, AH, CH, DH and BH are refused rather than read as other registers |
| `Latch.ReportsExactly` | substrate/substrate_n.c:708-729 | in every interleaving an exit reports 1 exactly when a latch was stored since the exit before it |
| `Latch.FirstExitTakes` | substrate/substrate_n.c:628-729 | every latch is taken by the first exit after its store |
| `Latch.TakenAtMostStores` | substrate/substrate_n.c:628-729 | exits that report an interrupt never outnumber the latches stored |
| `Latch.HandsTell` | substrate/substrate_n.c:628-646 | an interrupter has something to do exactly while it has looked and done nothing since: a latch to store if it looked at a thread in the gate, else a thread to suspend |
| `Latch.QuietExactly` | substrate/substrate_n.c:628-729 | after an exit no latch is set until the thread enters the gate again, whatever comes, exactly when no interrupter that looked before has its store still to do |
| `Latch.StoreComesLate` | substrate/substrate_n.c:636-641 | and if one has, its store is possible at once, in user code |
| `Latch.LateLatch` | substrate/substrate_n.c:636-641 | that exception happens |
| `CopyPath.BytewiseMeans` | core/sys_fs.c:49-74 | copying byte by byte gives the string if a NUL comes first, EFAULT if an unreadable byte does, ENAMETOOLONG after 4096 bytes without either |
| `CopyPath.CopyPath` | core/sys_fs.c:49-74 | chunks of 64 with their fallback give exactly that, for every layout of readable memory |
| `Times.StoredIsPositive` | core/hostfs_nt.c:373-378 | every 64-bit time is stored as a positive host time, without overflow, so never as "leave alone" |
| `Times.SentinelsExactly` | core/sys_fs.c:513-533 | which timespecs become the sentinels |
| `Times.AskedExactly` | core/sys_fs.c:513-533 | which timespecs are refused |
| `Times.NowAndOmit` | core/sys_fs.c:513-533 | UTIME_NOW stores the time it is and UTIME_OMIT leaves what was there |
| `Times.ShownFromSeventy` | core/hostfs_nt.c:363-371 | what stat shows of a host time from 1970 on, and of one the host does not keep |
| `Times.RoundTripExactly` | core/hostfs_nt.c:367-378 | seconds come back and nanoseconds rounded down to 100 exactly for times from 1970 on and whole seconds before |
| `Times.SetThenStat` | core/hostfs_nt.c:695-710 | the same through utimensat, the host and stat, with the other time left alone |

## Left out

- Windows itself: the host store is its contract in core/hostfs.h, the substrate calls are a byte-addressed memory with protections.
- Windows junctions, links made by Windows and case-insensitive volumes, which no tree describes.
- A change of the host tree by another process between two steps of one operation.
- What /proc and /dev contain: each is a tree of the same kind as the host's, found by the same descent.
- The permission check `may`: an arbitrary predicate that the operations ask and obey.
- File contents, O_TRUNC and O_APPEND, and locks on host files; a created file is an empty object.
- mknod of a plain file, which opens and closes a new file, and the owner and mode given to new objects.
- NUL bytes in a link's target, where the C strings end early.
- VfsOps.Vfs.SetAttr: does not say which attribute changes to what, nor model the owner check, since objects carry no attributes.
- VfsOps.Vfs.SetFileAttr: the same.
- VfsOps.Vfs.Truncate: does not say that the size changes, since files carry no contents.
- An empty path with AT_EMPTY_PATH, where the calls work on the descriptor itself.
- A host open that fails after it created the file.
- PipeCalls.Process.Dup2: says what the slots hold and what is released, not that the new slot is filled before the old description's release runs.
- Allocation failures of pipes and of the descriptor table, and a fault while copying bytes out of a read, after the pipe has moved.
- DirStreams.DirStream.GetDents: host errors inside a batch of entries, and the entries of /proc and /dev, which are not part of this model.
- ElfLoader.AddressSpace.Load: sums in the headers that wrap around 64 bits, which the loader does not check for, are excluded by its precondition.
- Stacks.Build: arguments that do not fit the eight-megabyte stack are excluded by its precondition.
- Stacks.ExecEnter: arguments that do not fit the eight-megabyte stack, which the code does not check for, are excluded by its precondition; where the stack and the vDSO are mapped is given.
- MovEmulator.Context.Handle: the memory the access reaches is mapped; a second fault inside the handler is not modelled.
- Latch.ReportsExactly: says nothing of when a suspend takes effect; a thread may be suspended in the gate if it enters between an interrupter's look and its suspend.
- A refusal of the host with EEXIST where no such name exists; the walk gives that errno a meaning of its own.
- Runs.Run: promises nothing after an operation whose answer is undefined, since the code promises nothing there.
- VfsOps.Vfs.Readlink: the errno at a mount point whose root is itself a link, which no mount has.
- Syscalls.System.Run: does not carry the bytes and answers of pipe reads and writes, which `PipeCalls.Run` does, nor what stat and readlink hand out, which `VfsOps.Vfs.Stat` and `VfsOps.Vfs.Readlink` do; the byte calls on host files and the directory calls, which change no handle, are not among its calls.
