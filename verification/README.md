# A verified model of the disk, file system and scheduler

This project models, in Dafny, a small operating system kernel written in C: a volume
layer on a 16 x 16 sector disk, a block allocator with a linked list of free runs, one-block
inodes with direct, indirect and doubly indirect tables, buffered file descriptors,
directories and path names, round-robin scheduling on four cores, semaphores, and a
producer/consumer program. `dafny verify dfyconfig.toml` checks all of it.

The code that changes things in place is modelled by classes and methods that do the same
(`Filesystem.Volume`, `Ifile.FileDesc`, `Kernel.Core`, `Disk.Drive`, and the methods of
`Directory` and `Files`). Each method is proved to take the state where a specification
function says; what the system promises is then proved about those functions.

| layer | modules |
|---|---|
| bytes and on-disk records | `Bytes`, `Codec` |
| free list, block map, allocation and what it takes, inodes, deletion | `FreeList`, `BlockMap`, `Allocate`, `Space`, `Lifecycle`, `Delete`, `Runs` |
| the mounted volume in place | `Filesystem` |
| file descriptors over a flat array of bytes | `FileView`, `Ifile` |
| directories as maps and how they grow, paths as folds, the tree of names, what searches take | `Entries`, `Directory`, `Growth`, `Paths`, `NameTree`, `Searches` |
| creating, unlinking, opening, and whole sessions | `NameChanges`, `Files`, `Histories` |
| rings, semaphores, the kernel in place | `Rings`, `Semaphore`, `Scheduler`, `Kernel` |
| producers and consumers | `ProdCon` |
| volumes and the partition table | `Partition`, `Disk` |
| the slips as they are written | `AsWritten`, `AsWrittenVolumes`, `AsWrittenScheduler` |

## How to read it

A `FreeList.State` is the blocks of a volume and the superblock in memory, with two records
kept only for the proofs: the owner of every block, and the runs met when the list on the
disk is walked. `FreeInv` says that list, counts and block 0 agree, `TreeInv` that pointers
and ownership agree in both directions, `TailleInv` that the recorded size covers every
mapped block. A `Scheduler.Snapshot` is the fields of all contexts and semaphores at one
moment, with the rings and waiter lists that following the links meets.

Where the C code ends the process (`exit`, a failed assertion, a full volume met by a seek)
a method answers `alive == false`. The contracts say exactly when that happens. For a
descriptor `Space.Costs(s, i, fs, s', ok)` says that an operation needs the file blocks `fs`
of inode `i`, that it succeeds exactly when the places missing on the way to them (tables
counted once) can be paid for, and that it has then cost exactly those. For everything that
walks a path the contracts compare with a ledger (`Searches.Ledger`): a search that gets to
the end of a directory makes it one block longer, which costs one to three blocks, so the
ledger follows the free blocks and the blocks each directory has got. `Searches.ResolveFits`,
`Searches.CreateFits` and `Searches.UnlinkFits` bound it by the number of names,
`Files.CreateWithRoom` and `Files.DeleteWithRoom` say what then happens at any depth, and
`Files.FirstFile` shows that a new volume of four blocks already takes a file. Whole
sessions of commands stop exactly at a command that cannot be finished
(`Histories.Finishes`; `Histories.RoomFinishes` says when there is certainly room).

The disk outlives the process, so the contracts also say what is left when it stops. A
descriptor touches no other file; a read that stops leaves its own as the user saw it if
nothing was written, a write what was on the disk or the bytes up to some place. A search, an
opening and an unlinking leave every file as it was; a creation leaves at most one inode
more, with no name. The allocator's invariant holds in every case. What a stop can spoil is the shape the ledger counts with: an allocation that
gets a table but no block for the data leaves that table behind, so the directory is no
longer compact (`Growth.Compact`) when the volume is mounted again, and the exact counts for
paths are not promised from there on. `Growth.StopSpoils` says when: exactly if something was
free, but not enough.

## Repairs

The program says of itself that it is unfinished. The main results are about the code with
these repairs. For each slip the code as it is written is modelled too, with the exact
condition under which it does no harm and an input on which it does; the last column names
the lemmas (`Iff` for conditions, `Example` for inputs). The users of `new_bloc` on a full
volume are composed with `new_bloc` as written; otherwise each slip is looked at by itself,
with the others repaired. Two of them need more blocks than a disk of 256 sectors has: the
signed high bytes (32768 free blocks or more; `create_volume` does not check the size) and
the wrong shift (block numbers from 256).

| slip | repaired here to | as written |
|---|---|---|
| `new_bloc` answers the new head of the list for a run of one, and writes an old length for a longer run | answer the block taken, write the length less one | `AsWritten.NewBlocAsWrittenIff`, `AsWritten.NewBlocOnFreshVolume` |
| `read_super_bloc` reads high bytes as signed | unsigned bytes | `AsWritten.ReadSuperAsWrittenIff`, `AsWritten.ReadSuperExample` |
| `create_inode` and the allocation go on with block 0, which `new_bloc` answers for the last block and for none | answer 0 and change nothing more | `AsWritten.CreateAsWrittenIff`, `AsWritten.CreateAsWrittenExample`, `AsWritten.CleanAsWrittenIff`, `AsWritten.CleanAsWrittenExample` |
| `flush_ifile` writes the buffer over block 0 when the allocation fails | the process ends | `AsWritten.FlushAsWrittenIff`, `AsWritten.FlushAsWrittenExample` |
| the size is not raised for a block entered in an existing indirect table | raised in all three ranges | `AsWritten.AllocIndirectAsWrittenIff`, `AsWritten.AllocIndirectAsWrittenExample` |
| the double table is read with a wrong shift and a wrong index | the indices used for writing | `AsWritten.EntryAsWrittenIff`, `AsWritten.EntryAsWrittenExample`, `AsWritten.MissingAsWrittenIff`, `AsWritten.MissingAsWrittenExample` |
| `delete_ifile` frees holes as block 0 and forgets the tables | every block of the inode's tree is freed once | `AsWritten.DeleteIfileAsWrittenIff`, `AsWritten.DeleteIfileAsWrittenExample` |
| `delete_inode` reads tables into null buffers | every block of the inode's tree is freed once | `AsWritten.DeleteInodeAsWrittenIff`, `AsWritten.DeleteInodeAsWrittenExample` |
| `free_bloc_array` looks at five of ten entries | all ten | `AsWritten.ArrayAsWrittenIff`, `AsWritten.ArrayAsWrittenExample` |
| `next_ctx` answers the current context, and the loop over blocked contexts asks it again | the context behind the current one; the loop advances | `AsWrittenScheduler.PickAsWrittenIff`, `AsWrittenScheduler.PickAsWrittenExample` |
| `yield` follows a null pointer on a core without a context | nothing happens | `AsWrittenScheduler.PickWithoutRunnable`, `AsWrittenScheduler.PickAsWrittenExample` |
| `del_ctx` clears only its own parameter | the core is left without a context when its ring is empty | `AsWrittenScheduler.DelCtxAsWrittenIff`, `AsWrittenScheduler.DelCtxAsWrittenExample` |
| `convert_cyl_sec` refuses small sector numbers and accepts the place after the end | exactly the sectors of the volume | `AsWrittenVolumes.BlocOfAsWrittenIff`, `AsWrittenVolumes.InverseAsWrittenIff`, `AsWrittenVolumes.BlocOfAsWrittenExamples` |
| `convert_bloc` accepts one volume too many and any block number | known volumes and their blocks | `AsWrittenVolumes.ConvertBlocAsWrittenIff`, `AsWrittenVolumes.ConvertBlocAsWrittenExample` |
| `format_vol` takes the number behind the last volume, and zeroes what its slot last held | known volumes | `AsWrittenVolumes.FormatVolAsWrittenIff`, `AsWrittenVolumes.FormatVolAsWrittenExample` |
| `save_mbr` never writes the code of an annexe | its own code | `AsWrittenVolumes.SaveMbrAsWrittenIff`, `AsWrittenVolumes.SaveMbrAsWrittenExample` |
| `chck_possible` computes the last sector wrongly, overlooks containment and inherits the slips of `convert_cyl_sec` | the last sector, containment, exactly the sectors of the volume | `AsWrittenVolumes.EndAsWrittenIff`, `AsWrittenVolumes.RefusedAsWrittenIff`, `AsWrittenVolumes.RefusedAsWrittenExamples` |
| `rvol` stops shifting one slot early | shift down to the last slot | `AsWrittenVolumes.RvolAsWrittenIff`, `AsWrittenVolumes.RvolAsWrittenExample` |

Not repaired, because nothing in the code says what it should do instead: `add_ctx` behind a
context that has ended and not yielded yet loses the new context (`Scheduler.AddKeeps` has
the condition, `AsWrittenScheduler.AddAfterEndExample` the input), and a semaphore made with
a negative value lets `sem_up` follow a null head (`Scheduler.NewSemKeeps`,
`AsWrittenScheduler.SemInitExample`). The results on all runs are about runs without these.

Kept as the code has it, against its own documentation where they differ: a seek allocates
even for a read, so a search can grow a directory by a block of zeros; the size of an open
file is the one found at opening, and `modified` is never cleared; `read_ifile` answers
READ_EOF when it has read fewer bytes than asked for, where include/file.h:54-56 announces
their number; `create_file` does not reject an existing name, which include/file.h:25-27
announces (`NameChanges.DuplicateCreation` says what every path then leads to), nor a path
that ends with a slash (`NameChanges.NamelessCreation`); `delete_file` only removes the name,
and does so for a directory that is not empty too, where include/file.h:29-30 announces a
failure (`NameChanges.UnlinkThenResolve` says which paths are then gone); `del_entry` answers
20, not RETURN_SUCCESS; a file written to the last byte of its last block is complete on the
disk, but the seek past it ends the process.

## Model

| member | source | states |
|---|---|---|
| Codec.FreeRoundTrip | src/disque/filesystem.c:10-48 | a free-run header decodes to the length and next run that were encoded, which stand behind the magic at bytes 2 and 4 |
| Codec.EncodedSuperAt | src/disque/filesystem.c:55-87 | every number of an encoded superblock is found at its byte offset |
| Codec.EncodedNameAt | src/disque/filesystem.c:55-87 | the name stands from byte 12 on, with zeros behind it |
| Codec.SuperRoundTrip | src/disque/filesystem.c:55-121 | a superblock decodes to the serial number, root, counts and name that were encoded |
| Codec.EncodedInodeAt | src/disque/filesystem.c:330-363 | every field of an encoded inode is found at its byte offset, and each type has its number |
| Codec.InodeRoundTrip | src/disque/filesystem.c:283-363 | an inode decodes to what was encoded, for all 16-bit fields |
| FreeList.FreeCount | src/disque/filesystem.c:240-243 | `nb_free_blc` is the number of blocks on the list, and it is 0 exactly when the list is empty |
| FreeList.NewBlocCorrect | src/disque/filesystem.c:233-260 | `new_bloc` fails exactly when nothing is free; otherwise it takes exactly the block it answers, the first free one of the superblock, and list, counts and block 0 stay consistent |
| FreeList.FreeBlocCorrect | src/disque/filesystem.c:265-279 | `free_bloc` adds exactly its argument to the free set and touches no other block |
| FreeList.FreeThenNew | src/disque/filesystem.c:233-279 | the block given back last is the next to be taken, and taking it undoes giving it back |
| FreeList.FreeMagicHolds | src/disque/filesystem.c:38-40 | every header reached from the head of a well-formed list carries the magic |
| BlockMap.VblocLocated | src/disque/filesystem.c:502-633 | a mapped file block is a data block from which climbing leads back to the same inode and index |
| BlockMap.DataMapped | src/disque/filesystem.c:502-633 | every data block is mapped, by exactly one inode and index |
| BlockMap.MapInjective | src/disque/filesystem.c:492-635 | no block serves two places, over all inodes and all three ranges |
| Allocate.GrowTree | src/disque/filesystem.c:547-554 | attaching a new block to a free pointer keeps pointers and ownership in agreement |
| Allocate.ViewKept | src/disque/filesystem.c:492-635 | attaching blocks keeps every mapping and the contents of every block of every file |
| Allocate.TableCorrect | src/disque/filesystem.c:529-607 | the walk to the last table attaches only missing tables, and stops short only on a full volume |
| Allocate.AllocCorrect | src/disque/filesystem.c:492-635 | how many blocks an allocation takes, which pointer it sets, when it answers 0 and what it then keeps |
| Allocate.OthersKept | src/disque/filesystem.c:492-635 | an allocation changes no other entry of any map |
| Allocate.AllocatedInv | src/disque/filesystem.c:508-510 | the size covers every mapped block after an allocation in any range |
| Allocate.BlockMapRefinement | src/disque/filesystem.c:642-645 | the block map refines a finite map: exact failure condition, new blocks taken from the free set and zero-filled, all else unchanged |
| Space.AllocPresent | src/disque/filesystem.c:492-635 | an allocation gives blocks to exactly the places on the way to the file block asked for, in no other inode |
| Space.AllocSpent | src/disque/filesystem.c:642-645 | it succeeds exactly when the places missing can be paid for, and has then cost exactly those |
| Space.InTwo | src/disque/ifile.c:143-166 | two operations on one file succeed exactly when there is room for what both need together, shared tables counted once |
| Space.AbsentBound | src/disque/filesystem.c:492-635 | reaching any set of file blocks takes at most one block for each and twelve tables |
| Lifecycle.FormatCorrect | src/disque/filesystem.c:126-162 | a formatted volume satisfies the invariant, everything but block 0 is free, block 0 decodes to the fixed serial number, the name given, no root and all but one block free, and block 1 to one run of these |
| Lifecycle.CreateKeeps | src/disque/filesystem.c:365-387 | creating an inode keeps the invariant |
| Lifecycle.CreateCorrect | src/disque/filesystem.c:365-387 | creation fails exactly when nothing is free; otherwise one free block becomes an inode whose file is all holes and no other file notices |
| Lifecycle.StoreCorrect | src/disque/ifile.c:131-137 | writing a data block changes the contents of exactly one block of one file |
| Delete.TreeMembers | src/disque/filesystem.c:434-473 | the blocks freed are exactly those of the inode's tree, each once |
| Delete.DeleteKeeps | src/disque/filesystem.c:434-473 | deletion keeps the invariant |
| Delete.DeleteCorrect | src/disque/filesystem.c:434-473 | deletion adds exactly the inode, its data blocks and its tables to the free set and changes no other file |
| Runs.OwnershipPartition | src/disque/filesystem.c:126-645 | after any run of operations on a formatted volume every block has exactly one use, and a table or data block is in one place of one inode only |
| Runs.FreeListAfterRun | src/disque/filesystem.c:32-48 | after any run the superblock in memory is the one on the disk, counts the free blocks, and the magic assertion cannot fail |
| Runs.LifeConserves | src/disque/filesystem.c:365-473 | create, any allocations and writes, then delete gives back exactly the free set and count there were, and every other file as it was |
| Filesystem.SuperBuffer | src/disque/filesystem.c:55-87 | the loop over the buffer writes the encoded superblock |
| Filesystem.InodeBuffer | src/disque/filesystem.c:330-363 | the loop over the buffer writes the encoded inode |
| Filesystem.Volume.InitSuper | src/disque/filesystem.c:126-162 | the constructor reaches the formatted state |
| Filesystem.Volume.NewBloc | src/disque/filesystem.c:233-260 | the update in place is the specified one |
| Filesystem.Volume.FreeBloc | src/disque/filesystem.c:265-279 | the update in place is the specified one |
| Filesystem.Volume.CreateInode | src/disque/filesystem.c:365-387 | the update in place is the specified one |
| Filesystem.Volume.AuxVblocOfFbloc | src/disque/filesystem.c:492-635 | without allocation it answers the map and changes nothing; with it, it is the specified allocation |
| Filesystem.Volume.VblocOfFbloc | src/disque/filesystem.c:637-640 | reading the map changes nothing |
| Filesystem.Volume.AllocateVblocOfFbloc | src/disque/filesystem.c:642-645 | the update in place is the specified allocation |
| Filesystem.Volume.FreeBlocArray | src/disque/filesystem.c:423-432 | the loop frees exactly the entries of the table |
| Filesystem.Volume.DeleteInode | src/disque/filesystem.c:434-473 | the loops free exactly the blocks of the inode's tree |
| FileView.AllocInvisible | src/disque/filesystem.c:642-645 | an allocation does not show in the bytes of any file, and the size then covers the block |
| FileView.StoreVisible | src/disque/ifile.c:131-137 | writing the buffer back puts exactly its bytes into exactly that file |
| FileView.WriteBackCorrect | src/disque/ifile.c:131-137 | writing back succeeds exactly when the places missing on the way can be paid for, and then the disk shows the buffer |
| FileView.CrossedAre | src/disque/ifile.c:143-166 | the blocks moving byte by byte makes a descriptor allocate are all those entered, and when written also the first one |
| Ifile.FileDesc.OpenIfile | src/disque/ifile.c:35-85 | an open file shows the bytes on the disk, cursor at 0, size and type as recorded |
| Ifile.FileDesc.FlushIfile | src/disque/ifile.c:126-138 | after a flush the disk holds what the user sees; it succeeds exactly when there is room for the block, and does nothing if nothing was written |
| Ifile.FileDesc.SeekIfile | src/disque/ifile.c:143-166 | a seek moves the cursor and changes nothing the user sees; it succeeds exactly when there is room for the blocks it leaves and enters |
| Ifile.FileDesc.Seek2Ifile | src/disque/ifile.c:171-177 | the same for absolute positions |
| Ifile.FileDesc.CloseIfile | src/disque/ifile.c:179-186 | after closing the disk alone holds the contents, and the closed descriptor can still be called |
| Ifile.FileDesc.ReadcIfile | src/disque/ifile.c:188-201 | the byte of the flat array under the cursor, or READ_EOF from the size found at opening |
| Ifile.FileDesc.WritecIfile | src/disque/ifile.c:203-213 | exactly one byte of the flat array changes |
| Ifile.FileDesc.ReadIfile | src/disque/ifile.c:215-231 | the bytes read are that slice of the flat array, READ_EOF exactly when it ends before; it succeeds exactly when there is room for the blocks entered, and leaves the file as it was if nothing was written and it stops |
| Ifile.FileDesc.WriteIfile | src/disque/ifile.c:233-240 | the bytes are spliced into the flat array at the cursor, exactly when there is room for the blocks crossed; a write that stops leaves what was on the disk, or the bytes up to some place; a file filled to its last byte is on the disk though the process ends |
| Ifile.ZeroBeyondTaille | src/disque/filesystem.c:508-510 | everything from the recorded size on is zero |
| Ifile.WriteCloseReopenRead | src/disque/ifile.c:35-240 | write, close, reopen, read gives the bytes back exactly, the rest of the file as it was, then zeros; it succeeds exactly when there is room for the blocks of the bytes |
| Ifile.WholeBound | src/disque/ifile.c:35-240 | for n bytes n / 512 + 13 free blocks are enough |
| Ifile.ReadBack | src/disque/ifile.c:143-240 | reading at a place answers what was written there last, whatever has been done elsewhere since |
| Ifile.ReadsJoin | src/disque/ifile.c:215-231 | reading m bytes and then n answers the bytes that reading m + n at once answers, and ends at the same place |
| Ifile.WritesJoin | src/disque/ifile.c:233-240 | writing on is writing at once |
| Ifile.PerformAll | src/disque/ifile.c:126-240 | any sequence of seeks, reads, writes, flushes and closes behaves like an array of bytes with a cursor: answers, final array, what other files show, what the disk shows once closed, and exactly when it can be finished |
| Entries.RecordWritten | src/disque/dir.c:94-104 | a 20-byte record written in place is read back and disturbs no other record |
| Entries.EntryBytesRead | src/disque/dir.c:92-96 | number and name, cut to its first 15 characters, come back from a record, and stand in it byte by byte with zeros behind them |
| Entries.FindFrom | src/disque/dir.c:47-67 | the first record in use under a name, or the number of records |
| Entries.FreeFrom | src/disque/dir.c:26-44 | the first free record, or the number of records |
| Entries.LookupAdded | src/disque/dir.c:72-111 | what every name resolves to after an addition, names already present included |
| Entries.AddRefinesUpdate | src/disque/dir.c:72-111 | adding an absent name is map update |
| Entries.AddKeepsShape | src/disque/dir.c:72-111 | records in use stay within the size, and names stay unique |
| Entries.DeleteRefinesRemoval | src/disque/dir.c:113-150 | deleting a present name is map removal if the directory held it once, otherwise the second record of that name takes its place |
| Entries.InEntries | src/disque/dir.c:161-193 | lookup answers exactly what the map holds |
| Directory.FindEntry | src/disque/dir.c:47-67 | the scan over straddling records finds the first match and leaves the contents alone, stopping or not; it ends exactly when there is room for the blocks it enters |
| Directory.NewEntry | src/disque/dir.c:26-44 | the scan finds the first free record, exactly when there is room for the blocks it enters, and leaves the contents alone |
| Directory.AddEntry | src/disque/dir.c:72-111 | the directory's bytes afterwards are those of the specified addition, in no other file; it succeeds exactly when there is room for the blocks the scan and the record need; stopped in the scan, or at the first record, it leaves them as they were |
| Directory.DelEntry | src/disque/dir.c:113-150 | the first record of that name is cleared, or nothing changes and failure is answered; it gets that far exactly when there is room, and stopped in the scan it changes nothing |
| Directory.InumberOfBasename | src/disque/dir.c:161-193 | the lookup in the map, answered exactly when there is room for growing; contents unchanged in every case |
| Growth.GrowthCosts | src/disque/filesystem.c:492-635 | a file that has exactly the blocks below its size grows by one block at most in an operation that reaches no further; when that can be paid for, what it costs, and that the file stays so |
| Growth.SearchReach | src/disque/dir.c:47-67 | a lookup or deletion reaches the block behind the last exactly when the scan ends there |
| Growth.AddReach | src/disque/dir.c:72-111 | an addition does exactly when the scan or the record ends there |
| Growth.StopsInScan | src/disque/dir.c:72-150 | in a compact directory a deletion that stops does so in its scan, and an addition too but for the first record |
| Growth.StopSpoils | src/disque/filesystem.c:523-635 | a block more that cannot be paid for leaves a compact file compact exactly when nothing was free; otherwise what was free has become tables |
| Paths.ComponentsSplit | src/disque/dir.c:206-234 | a slash only separates components |
| Paths.SlashesDoNotMatter | src/disque/dir.c:206-234 | repeated and trailing slashes do not matter |
| Paths.ParentThenLookup | src/disque/dir.c:238-271 | looking the last name up in the parent gives what the whole path resolves to |
| Paths.ResolveByNames | src/disque/dir.c:195-236 | the root for a slash; the same with a trailing slash as without; otherwise the last name looked up in the directory before it, and nothing for relative paths or where that is no directory |
| Paths.ParentIs | src/disque/dir.c:238-271 | the parent is the directory that the path up to its last slash resolves to; there is none exactly if that is no directory or the path is relative |
| Paths.WalkRoots | src/disque/dir.c:195-236 | paths of a well-formed name space lead to inodes |
| NameTree.PathsAreUnique | src/disque/dir.c:195-236 | in a tree of directories two paths that lead to one inode have the same components |
| Searches.SearchAccounts | src/disque/dir.c:161-193 | a lookup is finished exactly when the ledger says so, and the ledger then accounts for free blocks and all sizes |
| Searches.EnterAccounts | src/disque/dir.c:72-111 | the same for entering a name |
| Searches.WalkFits | src/disque/dir.c:195-236 | a walk takes at most three free blocks for each name, and one more of each directory |
| Searches.ResolveFits | src/disque/dir.c:195-236 | when there is certainly room to resolve a path, whatever it is |
| Searches.CreateFits | src/disque/file.c:19-41 | when there is certainly room to create a file, whatever its path |
| Searches.UnlinkFits | src/disque/file.c:43-59 | when there is certainly room to unlink one |
| NameChanges.CreateThenResolve | src/disque/file.c:19-41 | the new path leads to the new inode, every other path exactly where it led before, and all other files have the bytes they had |
| NameChanges.DuplicateCreation | src/disque/file.c:19-41 | with an existing name: exactly what every path leads to, by which of the two records comes first |
| NameChanges.NamelessCreation | src/disque/file.c:19-41 | under a path that ends with a slash a file is created that no path leads to; all paths lead where they led |
| NameChanges.CreatedTree | src/disque/file.c:19-41 | creation keeps the directories a tree |
| NameChanges.CreatedUnique | src/disque/file.c:19-41 | creation of a name that is not there keeps names unique |
| NameChanges.CreatedNameSpace | src/disque/file.c:19-41 | creation keeps the name space well formed |
| NameChanges.UnlinkThenResolve | src/disque/file.c:43-59 | the path leads nowhere exactly if the directory held the name once, otherwise to the second file of that name; exactly the paths through it are gone, no inode is freed |
| NameChanges.UnlinkedTree | src/disque/file.c:43-59 | unlinking keeps the directories a tree and names unique |
| NameChanges.UnlinkedNameSpace | src/disque/file.c:43-59 | unlinking keeps the name space well formed |
| NameChanges.WritingNames | src/disque/file.c:107-126 | writing a file that is no directory keeps the name space, the tree and what every path leads to |
| Files.InumberOfPath | src/disque/dir.c:195-236 | the loop ends with the fold of lookups over the components, exactly when the ledger has room for the walk; every file is as it was, stopping or not |
| Files.DinumberOfPath | src/disque/dir.c:238-271 | what the path up to its last slash resolves to, if the path is absolute and that is a directory, otherwise 0, with the last name; exactly when there is room; every file is as it was, stopping or not |
| Files.CreateFile | src/disque/file.c:19-41 | a new empty file under that name in the directory that the path up to its last slash resolves to, or failure exactly if there is no such directory or no block for the inode; finished exactly when there is room for the walk and the entry; stopped, it leaves every file as it was and at most one inode more |
| Files.DeleteFile | src/disque/file.c:43-59 | the first entry of that name is removed from the directory that the path up to its last slash resolves to, or failure exactly if there is no such directory or entry; finished exactly when there is room for the searches; stopped, it leaves every file as it was |
| Files.CreateWithRoom | src/disque/file.c:19-41 | in a directory at any depth a new name is taken whenever there is room for a search for each name of the path and one more; the path then leads to the new empty file of that type, every other one where it led |
| Files.DeleteWithRoom | src/disque/file.c:43-59 | with the same room a path that leads somewhere is unlinked; where names are unique exactly the paths through it lead nowhere then |
| Files.OpenFile | src/disque/file.c:65-80 | a descriptor on the file the path resolves to, showing its bytes, or failure exactly when it resolves to none; finished exactly when there is room; every file is as it was, stopping or not |
| Files.MakeFilesystem | src/disque/mknfs.c:56-69 | formatting and creating a root gives a well-formed name space, a tree with unique names, an empty root, the name and serial number, and all blocks but two free |
| Files.FirstFile | src/disque/mknfs.c:56-69 | on a new volume of at least four blocks the first file is created, and its path leads to it |
| Histories.StepResolves | src/disque/file.c:19-126 | a search, creation, unlinking or writing keeps the name space, its tree, and every path whose names it does not touch |
| Histories.RunResolves | src/disque/file.c:19-126 | so does any run of them |
| Histories.RunBytes | src/disque/file.c:19-126 | any run keeps every file that is no directory and that it has not written |
| Histories.FileSurvives | src/disque/file.c:19-126 | a file stays under its path with its bytes until the path is touched or the file written |
| Histories.RunUnique | src/disque/file.c:19-126 | names stay unique as long as only names that are not there are created |
| Histories.Use | src/disque/file.c:65-126 | open, any sequence of operations, close: the file then holds what the flat array would, and nothing else has changed; finished exactly when the ledger has room for the path and then the free blocks for the work; stopped, every other file is as it was |
| Histories.Do | src/disque/file.c:19-126 | each command makes exactly the change it stands for, exactly when it can be finished, and stopped leaves what it may |
| Histories.RoomFinishes | src/disque/file.c:19-126 | commands that can certainly be finished |
| Histories.CreationFound | src/disque/file.c:19-41 | after the command that creates it in a directory that is there, a path that led nowhere leads to a file of that type |
| Histories.UnlinkingGone | src/disque/file.c:43-59 | after the command that unlinks it a path that led somewhere leads nowhere, where names are unique |
| Histories.WritingDone | src/disque/file.c:65-126 | after the command that writes bytes at a place of a file they are there, and the rest is as it was |
| Histories.ReadingDone | src/disque/file.c:65-126 | a command that reads at a place within the size answers the bytes there, and leaves the file as it was |
| Histories.SessionRan | src/disque/file.c:19-126 | the changes of a session of commands make one run |
| Histories.Session | src/disque/file.c:19-126 | a session does what its commands stand for and keeps the name space and its tree; it stops exactly at a command that cannot be finished, in the state the commands before it have led to, and leaves what that one may |
| Rings.Fair | src/ordonnancement/context.c:98-125 | every element that can run is chosen before as many turns as the circle has elements |
| Semaphore.DownSound | src/ordonnancement/context.c:242-256 | a down waits exactly when the value is not positive, and the waiter list stays duplicate-free and as long as the value is negative |
| Semaphore.UpSound | src/ordonnancement/context.c:261-272 | an up wakes exactly one waiter whenever there is one |
| Semaphore.DownThenUp | src/ordonnancement/context.c:242-272 | an up takes back the latest down: it gives the unit back, or wakes who came last |
| Semaphore.CompletedDowns | src/ordonnancement/context.c:231-272 | over all runs completed downs never exceed initial value plus ups, and a down waits only when they are used up |
| Scheduler.AddKeeps | src/ordonnancement/context.c:158-175 | a new context keeps every core's ring one cycle apart from the others exactly when the current context of its core has not just ended |
| Scheduler.AddPlaces | src/ordonnancement/context.c:158-175 | it comes right behind the first of its ring, ready, and current only on a core that had none; nobody else changes state |
| Scheduler.RemoveKeeps | src/ordonnancement/context.c:179-203 | so does removal |
| Scheduler.FinishKeeps | src/ordonnancement/context.c:142-154 | a finished context is terminated and out of its ring, the rest of which keeps its order; the core is left without a context exactly when it was the only one; nobody else changes state |
| Scheduler.SwitchKeeps | src/ordonnancement/context.c:98-155 | a turn keeps the rings and changes nothing about who can run |
| Scheduler.SwitchActivates | src/ordonnancement/context.c:98-155 | the context that gets the turn could run and is activated now; no other context changes its state, no other core its context |
| Scheduler.TakeSemKeeps | src/ordonnancement/context.c:242-254 | all is in order between the end of `sem_down` and the yield, where preemption can occur |
| Scheduler.TakeSemStates | src/ordonnancement/context.c:242-254 | who must wait is blocked; nobody else changes state |
| Scheduler.UpIsSafe | src/ordonnancement/context.c:265-268 | the head `sem_up` follows is there |
| Scheduler.GiveSemKeeps | src/ordonnancement/context.c:261-272 | exactly the latest waiter becomes able to run |
| Scheduler.GiveSemStates | src/ordonnancement/context.c:261-272 | who is woken is activated; nobody else changes state |
| Scheduler.NewSemKeeps | src/ordonnancement/context.c:231-237 | a new semaphore is sound, and `sem_up` safe, exactly when its value is not negative |
| Scheduler.NewSemValue | src/ordonnancement/context.c:231-237 | a new semaphore has the value asked for and nobody on its list; the others are as they were |
| Scheduler.EnabledExactly | src/ordonnancement/context.c:98-272 | when each operation is possible, in terms of who is current, who waits and who is blocked |
| Scheduler.SemaphoreLaw | src/ordonnancement/context.c:231-272 | from the moment a semaphore is made with `val`, over any run of the whole kernel, its value is `val` less the downs and with the ups performed on it; downs that have returned are never more than `val` and the ups, and a down waits only when those are used up |
| Scheduler.StateAfter | src/ordonnancement/context.c:98-272 | only a turn, a wait and a wakeup of its own change the state of a live context, and to what |
| Scheduler.ReadyUntilTurn | src/ordonnancement/context.c:142-145 | after any run a live context is ready exactly while it has neither been given a turn nor had to wait; where nobody waits before its first turn, exactly while it has not been given one |
| Scheduler.RingsAndLists | src/ordonnancement/context.c:98-272 | after any run each ring is one cycle of exactly its core's live contexts, and a live context is blocked exactly when it is on one waiter list |
| Scheduler.WaitersCounted | src/ordonnancement/context.c:231-272 | after any run a semaphore's list holds max(0, -value) different contexts, in the order linked |
| Scheduler.Fairness | src/ordonnancement/context.c:98-125 | a context that can run becomes current within as many turns as its ring has contexts |
| Kernel.Core.AddCtx | src/ordonnancement/context.c:158-175 | relinking in place is the specified insertion: behind the current context, or alone on its core |
| Kernel.Core.DelCtx | src/ordonnancement/context.c:179-203 | relinking in place is the specified removal; the core keeps its current context unless it was the only one |
| Kernel.Core.Predecessor | src/ordonnancement/context.c:195-197 | the search ends at the context before the one removed |
| Kernel.Core.NextCtx | src/ordonnancement/context.c:205-219 | the first candidate for the next turn, which is the one behind the current |
| Kernel.Core.Pick | src/ordonnancement/context.c:112-121 | the loops past terminated and blocked contexts end exactly when some context of the ring can run, at the first that is neither |
| Kernel.Core.Yield | src/ordonnancement/context.c:98-145 | it ends exactly on a core without contexts or with one that can run; the turn goes to the first such candidate, which is activated then; no other context changes its state |
| Kernel.Core.Return | src/ordonnancement/context.c:146-152 | the specified departure: the context that was current is terminated, no other changes its state |
| Kernel.Core.SemInit | src/ordonnancement/context.c:231-237 | a new semaphore has the value given, and nobody on its list |
| Kernel.Core.SemDown | src/ordonnancement/context.c:242-256 | the specified down, then a turn if it must wait; the value is one less, and who must wait is the head of the list; it ends exactly when it need not wait or another context of the core can run |
| Kernel.Core.SemUp | src/ordonnancement/context.c:261-272 | the specified up: the value is one more, and the head of the list, if the value was negative, is activated and off the list |
| ProdCon.StepKeeps | src/ordonnancement/prod_con.c:23-58 | every step of every context keeps the accounts of the three semaphores |
| ProdCon.Exclusion | src/ordonnancement/prod_con.c:38-41 | two unblocked contexts between the mutex operations are one |
| ProdCon.BufferSafety | src/ordonnancement/prod_con.c:23-69 | for any number of contexts and any interleaving: 0 <= cpt <= N, mutual exclusion, and conservation of slots, items and tokens in flight |
| ProdCon.BlockedOnOne | src/ordonnancement/prod_con.c:35-58 | blocked contexts are on exactly one list, the others on none |
| ProdCon.DeadlockFreedom | src/ordonnancement/prod_con.c:35-58 | with N > 0, a producer and a consumer, some context can always move |
| ProdCon.StepDoes | src/ordonnancement/prod_con.c:23-58 | every step takes its context on to the next of the six places, changes exactly the semaphore of that place by one and the counter with the store, and blocks exactly if the semaphore has become negative |
| ProdCon.RoundsAreUps | src/ordonnancement/prod_con.c:35-58 | in any interleaving the ups of `plein` are the rounds producers complete, those of `vide` the rounds consumers complete |
| ProdCon.RoundsApart | src/ordonnancement/prod_con.c:35-58 | consumers never complete more rounds than producers, and producers at most N more than consumers |
| ProdCon.StepsAccounted | src/ordonnancement/prod_con.c:35-58 | in any interleaving the steps made are the places the contexts have got on, which are twelve for every round a consumer completes but for what was ahead at the start |
| ProdCon.NoLivelock | src/ordonnancement/prod_con.c:35-58 | however contexts are scheduled, all steps but the first 6 N + 12 for each context bring a completed round of a consumer for every twelve |
| ProdCon.Progress | src/ordonnancement/prod_con.c:35-58 | from every state that satisfies the invariant, with N > 0, a producer and a consumer, some schedule completes one more round of a consumer |
| ProdCon.AlwaysProgress | src/ordonnancement/prod_con.c:35-69 | so however a run of the program has begun |
| Partition.MutualInverses | src/disque/volume.c:133-206 | block numbers and sector coordinates of a volume correspond one to one, block b being the sector b places behind the first |
| Partition.Isolation | src/disque/volume.c:133-160 | different blocks of disjoint volumes, or of one, lie in different sectors |
| Partition.RoundTripIff | src/disque/volume.c:11-127 | a partition table comes back exactly when its volumes fit and their codes stand for their types |
| Partition.MbrRoundTrip | src/disque/volume.c:11-127 | every table of volumes that fit comes back |
| Partition.MbrBytes | src/disque/volume.c:88-127 | every byte of the record: magic, number of volumes, five bytes for each, zeros |
| Partition.MbrRead | src/disque/volume.c:11-48 | what is read from any record: as many volumes as byte 2 says, each from its five bytes, exactly when these are at most eight of known types |
| Partition.EndsDecide | src/disque/mkvol.c:29-38 | looking at the ends and for containment is the same as disjointness, which is that one volume ends before the other begins |
| Partition.CreationIs | src/disque/mkvol.c:59-70 | a volume is created exactly when the table has room, its size is not 0 and no sector it asks for belongs to another, and is then the last one |
| Partition.RemovalIs | src/disque/rvol.c:15-22 | a removal takes out that volume alone |
| Partition.TableRuns | src/disque/mkvol.c:59-70 | any run of guarded creations and removals keeps at most eight pairwise disjoint volumes |
| Partition.SurvivorsInOrder | src/disque/rvol.c:15-22 | after any run of creations and removals the volumes left of those there were are the same, in the same order, in front of those created, in the order of creation |
| Disk.Drive.WriteBloc | src/disque/volume.c:154-160 | exactly one block of one volume changes, and no sector outside it |
| Disk.Drive.ReadBloc | src/disque/volume.c:146-152 | the block, exactly when the volume has it |
| Disk.Drive.FormatVol | src/disque/volume.c:162-175 | every block of the volume is zeroed and no other sector is touched |
| Disk.Drive.SaveMbr | src/disque/volume.c:88-127 | sector (0,0) holds the encoded table, all others are as they were |
| Disk.Drive.InitMbr | src/disque/volume.c:11-48 | the table in memory is the one decoded from sector (0,0) |
| Disk.Drive.ChckPossible | src/disque/mkvol.c:20-40 | possible exactly when no sector asked for belongs to a volume |
| Disk.Drive.CreateVolume | src/disque/mkvol.c:59-70 | it succeeds exactly when the table has room, the size is not 0 and the place asked for is disjoint from every volume; the volume is then appended and the table saved, otherwise nothing changes; the table stays sane, and no sector but (0,0) changes |
| Disk.Drive.Rvol | src/disque/rvol.c:15-22 | that volume is taken out, the others keep their order, the table is saved, and no sector but (0,0) changes |
| AsWritten.NewBlocAsWrittenIff | src/disque/filesystem.c:240-259 | as written, `new_bloc` is right exactly when nothing is free |
| AsWritten.NewBlocOnFreshVolume | src/disque/filesystem.c:240-259 | it is wrong on a new volume of three blocks |
| AsWritten.ReadSuperAsWrittenIff | src/disque/filesystem.c:93-121 | as written, a superblock is read right exactly below 32768, with two small serial bytes |
| AsWritten.ReadSuperExample | src/disque/filesystem.c:112 | a formatted volume of 40001 sectors is mounted with -25536 free blocks |
| AsWritten.CreateAsWrittenIff | src/disque/filesystem.c:383-386 | as written, with `new_bloc` as written, the superblock survives a creation exactly when more than one block was free |
| AsWritten.CreateAsWrittenExample | src/disque/filesystem.c:383-386 | the first inode of a new volume of two blocks replaces its superblock |
| AsWritten.CleanAsWrittenIff | src/disque/filesystem.c:506-512 | the same for clearing a block just allocated |
| AsWritten.CleanAsWrittenExample | src/disque/filesystem.c:506-512 | the first block allocated on a new volume of two blocks clears its superblock |
| AsWritten.FlushAsWrittenIff | src/disque/ifile.c:131-137 | as written, the superblock survives a flush exactly when the file block exists and can be paid for, or the buffer is the superblock |
| AsWritten.FlushAsWrittenExample | src/disque/ifile.c:131-137 | on a full volume one character written and flushed replaces it |
| AsWritten.AllocIndirectAsWrittenIff | src/disque/filesystem.c:547-559 | as written, the size still covers the file exactly when it already covered the new block |
| AsWritten.AllocIndirectAsWrittenExample | src/disque/filesystem.c:547-559 | on a new volume, block 11 entered after block 10 is beyond the size |
| AsWritten.EntryAsWrittenIff | src/disque/filesystem.c:593 | as written, an entry is read right exactly below 256 |
| AsWritten.EntryAsWrittenExample | src/disque/filesystem.c:593 | an entry that leads to block 256 is read as null |
| AsWritten.MissingAsWrittenIff | src/disque/filesystem.c:615 | as written, with block numbers below 256: for even k the test is right exactly when entry k is null, for odd k exactly when entries k and (k - 1) / 2 are both null or both not |
| AsWritten.MissingAsWrittenExample | src/disque/filesystem.c:615 | a present entry taken for missing, and a missing one for present |
| AsWritten.DeleteIfileAsWrittenIff | src/disque/ifile.c:24-33 | as written, `delete_ifile` frees the right blocks exactly without holes and tables |
| AsWritten.DeleteIfileAsWrittenExample | src/disque/ifile.c:24-33 | a file that has only block 10: block 0 is freed and the table is not |
| AsWritten.DeleteInodeAsWrittenIff | src/disque/filesystem.c:434-473 | as written, it frees the inode's tree exactly when there are no tables |
| AsWritten.DeleteInodeAsWrittenExample | src/disque/filesystem.c:449-454 | a file that has block 10 stops the program |
| AsWritten.ArrayAsWrittenIff | src/disque/filesystem.c:423-432 | as written, the entries of a table are freed exactly when the last five are null |
| AsWritten.ArrayAsWrittenExample | src/disque/filesystem.c:423-432 | of a full table the last five entries stay allocated |
| AsWrittenScheduler.PickAsWrittenIff | src/ordonnancement/context.c:110-121 | as written, the turn is right from a live context exactly when no other one of the core can run, and from one that has ended exactly when the first live one can |
| AsWrittenScheduler.RunLiveOrEnded | src/ordonnancement/context.c:142-154 | in every run the current context of a core is live or has just ended, so the two cases above are all there are |
| AsWrittenScheduler.PickWithoutRunnable | src/ordonnancement/context.c:109-121 | as written, when no context can run the loop never ends, or a context that has ended goes on, or a null pointer is followed |
| AsWrittenScheduler.PickAsWrittenExample | src/ordonnancement/context.c:205-219 | with two contexts ready the other one never gets a turn; a core without contexts follows a null pointer |
| AsWrittenScheduler.DelCtxAsWrittenIff | src/ordonnancement/context.c:187-200 | as written, `yield` never leaves a removed context exactly when it was alone |
| AsWrittenScheduler.DelCtxAsWrittenExample | src/ordonnancement/context.c:187-200 | the only context of a core ends, and the core loops on it |
| AsWrittenScheduler.AddAfterEndExample | src/ordonnancement/context.c:158-175 | a context added behind one that has just ended is on no ring |
| AsWrittenScheduler.SemInitExample | src/ordonnancement/context.c:231-272 | a semaphore of value -1 has no head for `sem_up` to follow |
| AsWrittenVolumes.BlocOfAsWrittenIff | src/disque/volume.c:183-206 | as written, a block is found again exactly when its sector number is not below the start's |
| AsWrittenVolumes.InverseAsWrittenIff | src/disque/volume.c:183-206 | as written, a whole volume is inverted exactly from sector 0 or within one cylinder |
| AsWrittenVolumes.BlocOfAsWrittenExamples | src/disque/volume.c:197-203 | a block not found, and a place past the end claimed |
| AsWrittenVolumes.ConvertBlocAsWrittenIff | src/disque/volume.c:133-144 | as written, when the coordinates are those of the volume |
| AsWrittenVolumes.ConvertBlocAsWrittenExample | src/disque/volume.c:133-144 | a block past the end is the first of the next volume |
| AsWrittenVolumes.FormatVolAsWrittenIff | src/disque/volume.c:162-175 | as written, the right sectors are zeroed exactly when the number is not the one behind the last volume, or its slot holds nothing |
| AsWrittenVolumes.FormatVolAsWrittenExample | src/disque/volume.c:162-175 | after two removals and a creation, formatting a volume that is gone zeroes one that is there |
| AsWrittenVolumes.SaveMbrAsWrittenIff | src/disque/volume.c:110-119 | as written, a table comes back exactly without annexes |
| AsWrittenVolumes.SaveMbrAsWrittenExample | src/disque/volume.c:110-119 | one annexe does not come back |
| AsWrittenVolumes.EndAsWrittenIff | src/disque/mkvol.c:29-31 | as written, the end is right exactly for whole cylinders |
| AsWrittenVolumes.RefusedAsWrittenIff | src/disque/mkvol.c:33-38 | as written, with `convert_cyl_sec` as written: exactly which overlaps are noticed and which free places refused |
| AsWrittenVolumes.RefusedAsWrittenExamples | src/disque/mkvol.c:20-40 | two overlaps let through and two free places refused |
| AsWrittenVolumes.RvolAsWrittenIff | src/disque/rvol.c:15-22 | as written, when removal is right |
| AsWrittenVolumes.RvolAsWrittenExample | src/disque/rvol.c:15-22 | eight volumes created one after the other, of which removing the first loses the eighth |

## Left out

- Ifile.FileDesc.SeekIfile: positions below 0 are not modelled; the source converts them to huge unsigned ones.
- Ifile.FileDesc.ReadIfile: reading 0 bytes is not modelled, because the source then tests a variable it never set.
- Ifile.WriteCloseReopenRead: writing no bytes is not modelled, for the same reason.
- Files.InumberOfPath: names of 16 characters and more are excluded, because the source writes their terminator past its buffer.
- Histories.Use: a directory opened as a file is left alone; the source would let a program write over its records, after which no name is sure to be found.
- Scheduler.RingsAndLists: runs in which a context is added behind one that has just ended, or a semaphore made with a negative value, are left out; `Scheduler.AddKeeps` and `Scheduler.NewSemKeeps` show that exactly these break the rings and lists.
- Kernel.Core.SemDown: what another core does while this one loops in `yield` is not part of the method; the answer false stands for a loop nobody on this core can end.
- Disk.Drive.ChckPossible: a request for 0 sectors is refused, and whether the volume fits on the disk or covers the partition record at (0,0) is not checked, as in the source.
- Disk.Drive.WriteBloc: volumes are taken to lie on the disk; what the hardware does past its last cylinder is not visible.
- Two descriptors open on the same file at once: each has its own buffer, and the last to write back wins.
- Several mounted volumes, `mount`, `umount` and null superblock pointers: one volume is modelled as an array of blocks, separately from the volume layer, with at most 65535 blocks.
- `init_super` on a volume of a single block: the source writes its first run header past the end.
- The default volume name of `init_super`: the name is always given.
- Races between cores: the source has no lock between them; every region with interrupts disabled is one atomic step.
- Stacks, the assembly of the context switch, interrupt masking, timers, the disk controller and its delays: the hardware library is not part of this model.
- Memory allocation and release, printing, argument parsing, the shell, the command-line programs and the demonstrations.
- Starvation of a waiter by later ones on a semaphore: the waiter list is last-in first-out, and only wakeups are shown not to be lost.
- The commented-out disk scheduling.
- What a producer and a consumer do with the objects: the buffer itself is not written by the source.
