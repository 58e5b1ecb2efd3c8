# Exceptions and directory streams of KOS, verified

This project models two mechanisms of the KOS operating system that run through headers,
kernel and C library, and proves what they promise. `dafny verify dfyconfig.toml` checks
everything.

**Structured exceptions.** TRY, EXCEPT, CATCH and FINALLY are macros over plain C. They
expand to labels, jumps, a one-shot loop, and one row `[begin, end) -> entry` per TRY block
in a handler table. A throw searches the table, frame by frame, through a cache of handler
ranges kept in an address tree.

- `Structured` gives programs their meaning, by a big-step evaluator: events, the
  thread-local exception code, the outcome. What the surrounding C code decides (whether an
  action faults, conditions, computed modes and codes) is an arbitrary function of all that
  happened before. Loops are expressed by calls, which may recurse without bound.
- `Expansion` is the macro expansion: code, and table rows in emission order.
- `Machine` runs the code. Throw, rethrow and `error_except` search the table with the
  unwinder's rules: the current address first, then one below each return address.
- `Correctness` proves that every program halts on the machine exactly as it means.
- `Rules` says what each construct does, of runs and in terms of its parts, with events, codes and
  the value of FINALLY_WILL_RETHROW written out.
- `Nesting` and `Laws` prove what a programmer relies on: which handler is reached, that
  propagation ends, that FINALLY blocks run once. `Reports` carries the last of these from
  programs that report to all programs.
- `Clobbering` and `Plans` settle which exception leaves a FINALLY block: what the text of
  the block allows, what follows for every run, and that nothing less is true.
- `HandlerTable`, `HandlerCache`, `AddressTree`, `CachedLookup` model the kernel's search,
  the construction of cache entries, the tree and the cached search, for all tables: absolute
  and relative rows, masks, and rows that lead to an exception descriptor in memory.
  `CachedMachine` puts the cache under the machine, wherever the image is loaded; `Unwinder`
  has the objects that are updated in place.

**Directory streams.** The kernel packs directory entries into a buffer
(`READDIR_MULTIPLE`), and user programs walk the buffer with macros.

- `DirectoryRecords` is the byte format and the walk, on arbitrary bytes.
- `DirectoryStream` is the kernel's producer, `DirectoryListing` the documented loop around
  it, `LibcDirectory` the stream of the C library with its buffer that may have to grow.
- `DirectoryHandles` has the same in place: file handle, buffers, stream object, loops.
- `DosDirectory` is the other `opendir`/`readdir`/`closedir`, over DOS search handles.

## Findings

Six things a reader would expect turned out to be false of the code. Each has an exact
condition, and an input on which it fails.

1. A cache entry is wrong for part of its range when it is built for an address at which a
   row ends that no earlier row around the address outranks: the range is trimmed by a strict
   comparison (src/kernel/src/unwind/except_cache-impl.c.inl:350-353; `Overlooks`,
   `AbuttingExample`).
2. When a row behind the first one leads to a descriptor, that descriptor is read at the entry
   of the first row (src/kernel/src/unwind/except_cache-impl.c.inl:280-291). Usually there is
   none, the construction fails, and the exception finds no handler at all (`Misread`,
   `DescriptorExample`). `FaithfulIff`, `RiskyIffMisled` and `TransparentIff` show that 1 and
   2 are all that can go wrong, on every table whose descriptors can be loaded. Code made by the TRY macros is
   safe from both: the instruction at every end label is a jump, which never throws, and its
   rows have no descriptors (`CachedRunsPreserveMeaning`).
3. A constant EXCEPT mode above 1 resumes execution where a computed one runs the handler
   (`ConstantExcept`, `LargeConstantExample`), against include/except.h:445-452.
4. The exception that leaves a FINALLY block is not always the one that entered it
   (`ClobberExample`). It is, in every program and every run, if the block and the functions it
   may call handle no exception for good except between `error_pushinfo` and `error_popinfo`
   (`OriginalContinues`). For a block that evaluates no condition, mode or code twice without
   an event in between, the text of the block and of the functions it calls says exactly whether
   it always is (`KeepsIff`), and every other code that the text allows does escape in some run
   (`AnotherEscapes`). The notes at
   include/except.h:296-347 warn of this.
5. The entries `.` and `..` advance the stream in every mode, even when they do not fit and
   even for READDIR_PEEK (src/kernel/src/fs/file.c:144-375), so `..` can be lost
   (`ListsEverythingIff`, `ParentLostExample`, `PeekStays`).
6. When `readdir` of the C library has to grow its buffer it does not read into the new one,
   but takes its contents for records (src/libs/libc/dirent.c:120-141). A directory is read
   completely exactly when every record fits the first buffer (`ReadsEverythingIff`).

Code and documentation differ in smaller things, where the code is followed: on when
READDIR_DEFAULT advances (include/dirent.h:247-248 against 283); `error_except(0)` throws the
current exception rather than rethrowing it (include/except.h:222-227 against
src/hybrid/i386-kos/except32.S:222-229), which is the same search; the cache tests any known
flag where only the mask flag is meant, and stores the first row twice, without effect.

## Model

| member | source | states |
|---|---|---|
| Correctness.ExpansionPreservesMeaning | include/except.h:649-734 | for every program and environment, the expanded code with its handler table halts in a given outcome, trace and exception code if and only if that is what the structured program means |
| Correctness.Simulate | include/except.h:653-733 | wherever the expansion of a statement is placed, the machine goes from its start to its end, or delivers its exception to whatever encloses it, with the events and the exception code of its meaning; `__rethrow` holds exactly whether an exception is pending |
| Rules.SimpleRules | include/except.h:201-227 | an action leaves its event and that of the exception it faults with, a throw sets the code, a rethrow leaves it, and reading FINALLY_WILL_RETHROW leaves its value; nothing else |
| Rules.SeqRule | include/except.h:649-734 | a statement runs, after the one before it, exactly when that one ends normally |
| Rules.IfRule | include/except.h:649-734 | a condition that holds, in view of all that happened, leads to the first branch and one that fails to the second |
| Rules.CallRule | src/kernel/i386-kos/except.c:51-198 | a call ends as the function does, in which no exception is pending |
| Rules.ExceptRule | include/except.h:674-686 | mode 0 lets the exception pass, mode 1 and a computed mode above run the handler, any other resumes, and only -1 repeats the instruction |
| Rules.CatchRule | include/except.h:701-716 | a CATCH takes exactly the exceptions of its code, constant or computed |
| Rules.FinallyRule | include/except.h:659-673 | the block runs after every body that ends normally or by an exception and is told which; a pending exception goes on when the block ends, and gives way to one that the block throws |
| Rules.PreserveRule | include/except.h:275-347 | after error_popinfo the exception code is what it was at error_pushinfo |
| Rules.RunRule | include/except.h:649-734 | the runs of the expanded code are exactly the endings of the first function by these rules |
| Rules.OneEnd | include/except.h:649-734 | a statement ends in at most one way |
| Rules.FinallyIsTold | include/except.h:659-673 | FINALLY_WILL_RETHROW is whether the body has thrown, at the start of the block and after anything the block has done |
| Rules.RunIsTold | include/except.h:659-673 | the same of what the expanded code reads, in runs of the machine |
| Rules.RunExamples | include/except.h:445-452 | concrete runs: after a throw the block reads true, EXCEPT (-1) repeats the instruction and EXCEPT (-2) goes on behind it |
| Expansion.RowsWithin | include/except.h:661-716 | every row of a statement guards addresses of that statement only, and its entry lies in the statement but outside the guarded range |
| Nesting.TableOrderIsNesting | include/except.h:661-681 | at every address, the rows that guard it, in table order, are the enclosing TRY blocks from the innermost to the outermost |
| Nesting.HandlerLeavesTry | include/except.h:664-686 | at every address from the end label of a TRY block to the end of its statement, that is, in all of its handler or FINALLY, the candidates are blocks inside that part and then exactly the blocks around the statement |
| Nesting.RowsBehind | include/except.h:664-686 | the blocks inside a handler or FINALLY lie behind the guarded body, so the block itself is never among them; where the statement itself throws, its test or its final rethrow, there are none |
| Nesting.DeliveryShrinks | include/except.h:201-207 | an exception goes to the innermost enclosing block that takes it, or nowhere in the function if none does; from the entry of that handler, from the rethrow of that FINALLY, which is its last instruction (`FinallyRethrows`), and past inner blocks from anywhere in it, only the blocks further out can be reached |
| Nesting.UnwindShrinks | src/kernel/i386-kos/except.c:51-198 | over all frames, a delivery ends unhandled, or in a candidate of the frame it stops in, with only the candidates further out left; the candidates in that frame and its callers become strictly fewer |
| Nesting.StepShrinks | src/kernel/i386-kos/except.c:51-198 | every throwing step of the machine that does not end the run drops frames, or stays and enters a candidate of the throwing instruction |
| Nesting.PropagationEnds | include/except.h:237-244 | an exception thrown on from handler to handler, across any number of frames, is delivered at most as often as it had candidates at first, so propagation ends in a handler or unhandled |
| Laws.AlikeRuns | include/except.h:674-716 | programs that differ only in constant or computed modes and codes have the same runs in any surrounding nest, although their code and tables differ |
| Laws.AlikeMeaning | include/except.h:674-716 | replacing modes and codes by ones with the same verdicts changes no meaning |
| Laws.ConstantCatch | include/except.h:701-716 | a CATCH of a constant decides like a CATCH of a variable with that value |
| Laws.ConstantExcept | include/except.h:674-686 | a constant EXCEPT mode decides like a computed one with that value if and only if it is at most EXCEPT_EXECUTE_HANDLER |
| Laws.LargeConstantExample | include/except.h:674-686 | with mode 2 the expanded program resumes for the constant and runs the handler for the variable |
| Laws.Balanced | include/except.h:659-673 | in every statement that ends normally or by an exception, the TRY blocks entered and the FINALLY blocks run match like brackets |
| Laws.FinallyExactlyOnce | include/except.h:659-673 | in every run of the expanded code of a reporting program that ends normally or by an exception, each FINALLY whose TRY block was entered has run exactly once, innermost first |
| Reports.ReportsAreInvisible | include/except.h:659-673 | letting every TRY block with a FINALLY, and every FINALLY, report changes no outcome, no exception code, and nothing in the trace but the reports |
| Reports.NumbersDistinct | include/except.h:659-673 | each block of a statement reports under a number of its own |
| Reports.FunctionsApart | include/except.h:659-673 | blocks of different functions report under different numbers |
| Reports.EveryRunCleansUpOnce | include/except.h:659-673 | every run of every program that ends normally or by an exception is a reporting run with the reports erased, in which each FINALLY whose TRY block was entered ran exactly once, innermost first |
| Clobbering.CurrentIsLastSet | include/except.h:296-310 | in every program, whatever ran, the current exception code is the one set last, by a raise or by error_popinfo |
| Clobbering.EvalCan | include/except.h:275-347 | whatever a run does to the exception code, the text of the statement allows |
| Clobbering.QuietKeeps | include/except.h:275-347 | the text of a block that handles nothing for good outside error_pushinfo and error_popinfo, here and in the functions it may call, allows no other code at its end |
| Clobbering.QuietForms | include/except.h:275-347 | everything between error_pushinfo and error_popinfo, everything that handles nothing, and every handler that throws on counts as such a block |
| Clobbering.OriginalContinues | include/except.h:661-673 | after such a block the exception that entered the FINALLY continues, in every program and run, whatever the block throws and handles in between |
| Plans.Realize | include/except.h:275-347 | everything that the text of a statement allows, with the functions it calls, is brought about by some surroundings, after any number of events, if it asks no question of them twice without an event in between; actions may be repeated |
| Plans.IndependentForms | include/except.h:275-347 | an action may recur, and a condition with an action in between, but not without one |
| Plans.KeepsIff | include/except.h:661-673 | a FINALLY block of that kind keeps every exception in all surroundings if and only if its text allows no other code |
| Plans.AnotherEscapes | include/except.h:661-673 | every other code that the text of such a block allows does escape in a run of the expanded code |
| Plans.ClobberExample | include/except.h:296-347 | exception 1 is thrown and 2 escapes, in a run of the expanded code |
| HandlerTable.LookupWithoutCache | src/kernel/src/unwind/except_cache-impl.c.inl:45-131 | an answer is always the first row that guards the address and accepts the code, with its entry point or that of its descriptor, inside the image; on a table without corrupt rows there is an answer whenever such a row exists, and on any table the answer is that of `Scan` |
| HandlerTable.ScanFinds | src/kernel/src/unwind/except_cache-impl.c.inl:45-131 | on any table, corrupt or not, the search ends at the first row that guards the address, relative or absolute, and whose mask, if it has one, is the code, provided that no row up to it has an unknown bit; a row outside the application finds nothing |
| HandlerTable.ScanMisses | src/kernel/src/unwind/except_cache-impl.c.inl:45-131 | nothing is found without such a row |
| HandlerTable.SoundMeans | src/kernel/src/unwind/except_cache-impl.c.inl:45-131 | which rows are not corrupt, over the bits and bounds of row and descriptor |
| HandlerTable.Finish | src/kernel/src/unwind/except_cache-impl.c.inl:79-124 | a row leads to its own entry point, if that lies in the image; or, exactly if its descriptor lies in the application, is of bypass type with known flags, disables preemption only for a driver and leads into the image, to the target of that, relative or absolute |
| HandlerTable.FirstMatchSelects | src/kernel/src/unwind/except_cache-impl.c.inl:45-131 | the first match is a row of the table that guards and accepts, and is missing only if there is no such row |
| HandlerCache.AllocateInfo | src/kernel/src/unwind/except_cache-impl.c.inl:168-404 | on a table without corrupt rows the construction fails exactly if a descriptor that it needs is not found where it is sought; otherwise the entry holds the rows around the address and the intersection of their ranges, trimmed by the other rows and clamped to the image. On any table the range contains the address and lies in the image |
| HandlerCache.GatheredRows | src/kernel/src/unwind/except_cache-impl.c.inl:259-304 | the rows of an entry, by their numbers: exactly those that guard the address with no row before them that guards it with a clear flag word |
| HandlerCache.Collect | src/kernel/src/unwind/except_cache-impl.c.inl:259-304 | the rows that guard the address are collected in table order, with all descriptors read at one address, the greatest begin and the least end; collecting fails if one is missing |
| HandlerCache.LoadDescriptor | src/kernel/src/unwind/except_cache-impl.c.inl:136-166 | a descriptor is loaded exactly if it can be read, is of the known type and flags, leads into the image, and disables preemption only for a driver; its target is taken as relative to the image, or as absolute, as the descriptor says |
| HandlerCache.Trim | src/kernel/src/unwind/except_cache-impl.c.inl:334-354 | the range is raised to the ends below the address and lowered to the begins above it |
| HandlerCache.EntryRange | src/kernel/src/unwind/except_cache-impl.c.inl:250-354 | the stored rows guard the whole range of an entry, which meets no row that ends below the address or starts above it, and is as large as that and the image allow |
| HandlerCache.FaithfulIff | src/kernel/src/unwind/except_cache-impl.c.inl:168-404 | an entry can be built and answers every address and code of its range like the plain search, if and only if no descriptor of a row that some code reaches is misread, none is missing where it is sought, and no row that some code reaches ends at the address while all rows around it start below |
| HandlerCache.VisibleIff | src/kernel/src/unwind/except_cache-impl.c.inl:45-131 | no earlier guarding row takes everything that a row takes, if and only if the row is the first for some code |
| HandlerCache.StartsBelow | src/kernel/src/unwind/except_cache-impl.c.inl:296-302 | the range of an entry reaches below its address if and only if all rows around the address start below it |
| HandlerCache.AbuttingExample | src/kernel/src/unwind/except_cache-impl.c.inl:350-353 | an entry built at the end of an inner block claims the addresses of that block for the outer handler |
| HandlerCache.DescriptorExample | src/kernel/src/unwind/except_cache-impl.c.inl:280-291 | a CATCH inside a block with a descriptor is found by the plain search and by no query that builds an entry |
| AddressTree.InsertAt | include/hybrid/list/atree-abi.h:280-378 | inserting a range that meets no other keeps the tree valid and adds exactly that range, also when a branch has to be taken over and inserted again |
| AddressTree.InsertAll | include/hybrid/list/atree-abi.h:170-176 | inserting the nodes of a branch again keeps the tree valid and adds exactly those ranges |
| AddressTree.LocateAt | include/hybrid/list/atree-abi.h:506-568 | the loop finds what the recursive search finds, and never walks below the lowest level |
| AddressTree.Locate | include/hybrid/list/atree-abi.h:506-568 | one comparison a level finds a range of the tree that contains the key, and nothing only if no range contains it |
| AddressTree.MappedOnce | include/hybrid/list/atree-abi.h:280-378 | in a valid tree no address is mapped twice |
| AddressTree.PopAt | include/hybrid/list/atree-abi.h:486-495 | removing the root of a branch keeps all other ranges and a valid tree |
| AddressTree.RemoveAt | include/hybrid/list/atree-abi.h:498-503 | exactly the ranges that do not contain the key remain |
| AddressTree.ExistsAt | src/kernel/src/unwind/except_cache.c:141-175 | the pruned search reports a meeting range if and only if some range of the tree meets the given one |
| CachedLookup.BlockSpansImage | src/kernel/src/unwind/except_cache.c:285-323 | the block computed on first use contains the whole image, which the code only asserts; it starts at a multiple of its size, and half of it would not do |
| CachedLookup.Insert | src/kernel/src/unwind/except_cache.c:285-340 | the cache keeps its shape and gains the new entry, or is unchanged, which happens only if the entry meets another |
| CachedLookup.LookupAnswers | src/kernel/src/unwind/except_cache.c:178-354 | a faithful cache answers like the plain search unless a descriptor is misread, and stays faithful after a query at any address that is not risky |
| CachedLookup.RunAnswers | src/kernel/src/unwind/except_cache.c:86-354 | over every run of queries at addresses that are not risky, with any failures of allocation and any clearing, all answers are those of the plain search |
| CachedLookup.RiskyIffMisled | src/kernel/src/unwind/except_cache.c:178-354 | an address is risky, by a condition on the table alone, if and only if a query there is answered wrongly or makes the cache answer a later one wrongly |
| CachedLookup.TransparentIff | src/kernel/src/unwind/except_cache.c:86-354 | on a table without corrupt rows every run of queries and clears is answered as by the plain search if and only if no address of the image is risky |
| CachedMachine.EndsAreJumps | include/except.h:664-686 | the instruction at the end label of every TRY block is a jump |
| CachedMachine.NotRisky | include/except.h:664-686 | no address that can throw is risky for the cache, wherever the image is loaded |
| CachedMachine.PlainIsFind | include/kos/i386-kos/asm/except.h:85-116 | absolute and relative rows lead to the same handlers at every load address |
| CachedMachine.CachedUnwindAgrees | src/kernel/i386-kos/except.c:51-198 | unwinding with cached searches reaches the same handler in the same frame as without, and leaves a faithful cache |
| CachedMachine.CachedRunsPreserveMeaning | src/kernel/i386-kos/except.c:51-198 | with unwinder, cache and address tree in place, at every load address, with absolute or relative rows and any failures of allocation, the machine halts exactly as the structured program means |
| Unwinder.Pick | src/kernel/src/unwind/except_cache.c:199-212 | the first stored handler that accepts the code is found |
| Unwinder.FirstUncommonBit | src/kernel/src/unwind/except_cache.c:293-300 | the loop finds the highest bit in which two addresses differ, all bits above being equal, or bit zero |
| Unwinder.ExceptCache.Find | src/kernel/src/unwind/except_cache.c:178-354 | on a table without corrupt rows the cache object answers and changes as the specified search on its abstract value; on any table it stays well formed |
| Unwinder.ExceptCache.Keep | src/kernel/src/unwind/except_cache.c:285-338 | the new entry is added, in the block computed from the image on first use, or dropped if it would meet another |
| Unwinder.ExceptCache.Clear | src/kernel/src/unwind/except_cache.c:93-102 | the cache is as at first |
| Unwinder.Thread.Search | src/kernel/i386-kos/except.c:113 | the search in one frame answers, and changes the cache, as specified; outside the code there is no handler |
| Unwinder.Thread.Rethrow | src/kernel/i386-kos/except.c:51-198 | the loop over frames stops in the handler, frame and cache that the specified unwinding gives, or reports the exception as unhandled with the exception code unchanged |
| Unwinder.Thread.Throw | src/hybrid/i386-kos/except32.S:127-202 | the code is recorded as raised, and delivery is that of a rethrow at the same point |
| Unwinder.ProgramRowsSound | include/kos/i386-kos/asm/except.h:199-224 | the table that the macros emit has no row that a search would call corrupt, at any load address |
| DirectoryRecords.PaddingAligns | src/kernel/src/fs/system.c:963-970 | records are padded, by less than eight bytes, to a multiple of eight |
| DirectoryRecords.NextIsAligned | include/dirent.h:340-346 | the next record starts at the least multiple of eight behind the NUL of this one |
| DirectoryRecords.WalkAligned | include/dirent.h:340-346 | on arbitrary bytes, every record of a walk but the first is aligned |
| DirectoryRecords.PutWrites | src/kernel/src/fs/file.c:318-356 | the bytes of a record: inode number at 0, type at 8, length at 10 with the low byte first, name and NUL from 12 on as far as asked for; no other byte changes |
| DirectoryRecords.PutEnds | src/kernel/src/fs/file.c:347-355 | a whole record has its name, and a NUL behind it |
| DirectoryRecords.PutEofWrites | src/kernel/src/fs/system.c:943-950 | the end record has length zero and the NUL of an empty name; no other byte changes |
| DirectoryRecords.PackEnds | include/dirent.h:340-346 | in a packed list every record lies where the walk finds it, with a NUL behind its name |
| DirectoryRecords.PutThenGet | include/dirent.h:340-346 | a written record is read back whole, and no byte outside it changes |
| DirectoryRecords.PackThenWalk | include/dirent.h:340-346 | walking a packed list of records returns exactly that list, for every base address and every reported size from the last NUL to a header after the next record start |
| DirectoryRecords.WalkInside | include/dirent.h:328-346 | on arbitrary bytes every record that the walk accepts lies inside the reported size with the NUL of its name, behind the record before it, and the number of records is bounded by the size |
| DirectoryStream.WalkOfFill | src/kernel/src/fs/system.c:935-975 | walking a buffer that the kernel filled, up to the returned size, yields exactly the entries put there, and notices the end record if there is one |
| DirectoryStream.ReadModes | src/kernel/src/fs/file.c:318-375 | past the special entries every mode reports the entry at the position and the size of its record; the stream moves on by one exactly in mode Continue, or in mode Default with room for the record |
| DirectoryStream.ReadSpecials | src/kernel/src/fs/file.c:144-217 | the special entries have records of 14 and 15 bytes and are passed over in every mode, skipped with READDIR_SKIPREL, and a hidden parent is skipped unless the room is less than a header |
| DirectoryStream.ReadEnd | src/kernel/src/fs/file.c:318-375 | at the end every mode reports nothing and stays |
| DirectoryStream.EmitWrites | src/kernel/src/fs/file.c:318-356 | with room for a header, exactly the record is written as far as it fits; otherwise nothing |
| DirectoryStream.FillEnds | src/kernel/src/fs/system.c:935-975 | every record that a call has put into the buffer is found by the walk, has a NUL behind its name and is aligned unless it is the first; the end record takes the last 13 bytes, aligned, with an empty name |
| DirectoryStream.FillKeeps | src/kernel/src/fs/system.c:935-975 | filling from some point of a buffer on changes nothing before it, and the returned size fits the buffer once anything was put there |
| DirectoryListing.FillStart | src/kernel/src/fs/system.c:935-975 | past the special entries, a call returns zero exactly at the end, more than the buffer exactly when the next entry is too large, and advances otherwise |
| DirectoryListing.FillEntries | src/kernel/src/fs/system.c:935-975 | what a call delivers is the run of entries between the stream positions before and after it |
| DirectoryListing.EnumerateLists | include/dirent.h:314-339 | what the documented loop lists, for every directory, address and size of the buffer, large enough or not |
| DirectoryListing.ListsEverythingIff | include/dirent.h:283-339 | the documented loop yields every entry exactly once and in order, with or without the end record, if and only if every record fits the buffer and the parent is not passed over; the special entries are passed over in every mode, a peek too (`PeekStays`) |
| DirectoryListing.SkipRelListsIff | src/kernel/src/fs/system.c:935-975 | with READDIR_SKIPREL the loop yields every entry but the special ones exactly once and in order, from any point before them and for every address of the buffer, if and only if their records fit |
| DirectoryListing.LargeBuffers | include/dirent.h:283-339 | from 36 bytes on, wherever the buffer lies, the condition is only that every record fits |
| DirectoryListing.ParentLostExample | src/kernel/src/fs/file.c:144-375 | with a buffer of 30 bytes an otherwise empty directory is listed without its parent |
| LibcDirectory.RoundsShrink | src/libs/libc/dirent.c:98-142 | each round of a call to `readdir` comes closer to a result, so that every call returns |
| LibcDirectory.PendingStep | src/libs/libc/dirent.c:98-142 | a call returns the first of the entries still to come and leaves the others, or returns nothing when there are none |
| LibcDirectory.ReadsEverything | src/libs/libc/dirent.c:98-142 | if every record fits, any number of calls on a fresh stream return every entry once, in order, and then nothing for ever |
| LibcDirectory.RewindRestarts | src/libs/libc/dirent.c:147-152 | after a rewind at any point the whole directory is returned again |
| LibcDirectory.GrowthEnds | src/libs/libc/dirent.c:120-141 | an entry that is too large is not returned when the new buffer happens to hold zeros |
| LibcDirectory.ReadsEverythingIff | src/libs/libc/dirent.c:98-142 | whatever a new buffer may hold, a fresh stream returns the whole directory if and only if every record fits the first buffer |
| DirectoryHandles.Handle.ReadDir | src/kernel/src/fs/file.c:144-375 | the size returned, the position and the bytes written are those of the specified read, in every mode |
| DirectoryHandles.Handle.ReadMultiple | src/kernel/src/fs/system.c:935-975 | the loop leaves the returned size, the position and the buffer of the specified fill, with or without READDIR_SKIPREL |
| DirectoryHandles.List | include/dirent.h:314-339 | the documented loop over handle and buffer produces the specified listing, with or without READDIR_SKIPREL, and ends |
| DirectoryHandles.WalkBuffer | include/dirent.h:329-337 | the inner loop, which does not test the first record, produces the specified walk |
| DirectoryHandles.DIR.constructor | src/libs/libc/dirent.h:31-48 | a fresh stream has its own buffer of 12 + 512 bytes, with nothing loaded |
| DirectoryHandles.DIR.Read | src/libs/libc/dirent.c:98-142 | the stream object returns and becomes what the specified `readdir` says, whatever the heap holds, and its buffer is the old one or newly allocated |
| DirectoryHandles.DIR.Rewind | src/libs/libc/dirent.c:147-152 | position and loaded size are reset and nothing else |
| DosDirectory.Library.OpenDir | include/dirent.h:417-438 | a stream over the matches is opened, or, whichever request failed, no block and no search is left behind |
| DosDirectory.Library.ReadDir | include/dirent.h:445-454 | call number k delivers match number k, numbered k modulo 65536; past the last match nothing changes; no other stream is disturbed |
| DosDirectory.Library.CloseDir | include/dirent.h:439-444 | exactly the block and the search of the stream go away |
| DosDirectory.ReadMany | include/dirent.h:417-454 | any number of calls on a new stream return each match once in order, numbered from 0 modulo 65536, then nothing for ever |
| DosDirectory.Serve | include/dirent.h:417-454 | over every sequence of requests, with any failures, each request is answered as from lists that know nothing of heap and searches, and the open streams agree with those; live blocks and open searches each number the open streams, and when all are closed nothing is left |

## Left out

- Unwinder.Thread.Rethrow: registers, the stack pointer and call-frame information are not modelled; a frame is a return address and local variables. The table of a program has no descriptor rows, so what the unwinder does with a descriptor (stack adjustment, disabled preemption) is left out.
- Plans.KeepsIff: covers blocks that evaluate no condition, computed mode or computed code twice with no event in between, also not in the functions they call; such a repetition has the same answer twice, so the text may allow more than any surroundings bring about, and only the direction of Clobbering.OriginalContinues is proved there.
- HandlerCache.FaithfulIff: another row counts as another answer, even one with the same entry point; exception codes are unbounded numbers; tables that name a descriptor which cannot be loaded are excluded, as in CachedLookup.RiskyIffMisled.
- Unwinder.ExceptCache.Find: locks are left out, and nothing is promised of the answer on a table with corrupt rows.
- Reports.EveryRunCleansUpOnce: says nothing of runs that end by resuming at the exception site; what the two CONTINUE dispositions do to the faulting instruction is an opaque outcome.
- HandlerCache.AllocateInfo: of tables with corrupt rows, on which the code gives up, only the range is promised.
- AddressTree.InsertAt: the tree is a value; its pointers are not updated in place, and centre points are computed by arithmetic instead of bit masks.
- LibcDirectory.ReadsEverythingIff: a failing reallocation, and the contents that a second reallocation keeps, are not modelled; a new buffer may hold anything.
- DosDirectory.Library.OpenDir: the query is passed as a string; its bytes are not written one by one.
- The compiler is assumed to keep the source order of the expanded code, which the known problems listed in README.md:130-134 of the repository demand.
- For EXCEPT and CATCH the jump at the end label is the compiler's way past the `else` arm (include/except.h:674-716). It is assumed to be there; a compiler may drop it when the handler and its test are empty, and then CachedMachine.EndsAreJumps does not speak of that block.
- EXCEPT_HANDLED and CATCH_HANDLED release stack memory, which is not modelled; otherwise they are EXCEPT and CATCH. The variant of the macros for the TPP preprocessor is left out.
- Jumps out of TRY and FINALLY blocks, which the rules exclude or leave unspecified.
- Locks and concurrent use of the cache and of a directory; entries added or removed while a directory is read.
- `xreaddirf`, which repeats `xreaddir` without the padding in its result; `seekdir`, `telldir`, the descriptor-based openers, and handler tables of 32-bit programs on a 64-bit kernel.
- include/features.h: the resolution of feature macros, over integer levels of any size, follows from its text by cases without induction, and the redirect families are name tables; both would only add easy members.
- include/io.h, include/malloc.h and include/assert.h: a few lines each, whose properties follow from one body.
