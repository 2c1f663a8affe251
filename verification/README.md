# Verified models of the kernel's page tables, executor, device tree, locks and context switch

Five parts of the kernel are modelled and proved here. `dafny verify dfyconfig.toml` checks them all.

**Page tables** (`Page*.dfy`). `PageTree` is the radix tree as a value with its meaning, the plain function
from virtual address to physical address and flags. `PageMap` is `map` as a function on trees, with the
kernel's windows, misalignment tests and wrapping arithmetic; `PageMeaning`, `PageExact`, `PageSuper` and
`PageLimits` say what a call does to every address, on which requests it is exact, and where its guarantees
stop. `PageQuery` is `query`, `PageWalk` the page walk of the RISC-V privileged architecture. `PagePlaced` and
`PageTables` put the tree into memory: class `Paging` runs `split`, `map_internal`, `map` and `query` in place
and refines the tree functions, with tables never shared. `PageRuns` covers sequences of calls and the
bootloader's address space, `PageBoot` the payloads for which that address space is right. LEVELS is any number
up to 5 (Sv39, Sv48, Sv57) with 8-byte entries.

**Executor** (`Executor.dfy`, `ExecutorPolls.dfy`, `LocalExecutor.dfy`). A transition system with one polling
loop and any number of wakers and spawners, interleaved at every lock operation and every access to the ready
flag; what whole phases of a poll do to the slots, for every outcome of every task; and the single-hart executor
as a class, each of whose methods is proved to be a run of that system.

**Device tree** (`Fdt*.dfy`). The token-stream parser and its loops, the flattening of section 5.4 of the
Devicetree Specification v0.3, and the round trips for trees, string lists and paths.

**Locks** (`RwGuards.dfy`, `SpinRwLock.dfy`, `SharedLocks.dfy`, `SharedOperations.dfy`, `AsyncRwLock.dfy`). The
compare-and-swap reader/writer lock, the locks that disable interrupts through a per-hart count, and the lock for
futures.

**Context switch** (`TrapCode.dfy`, `ContextRuns.dfy`). The save and restore code as a register machine, one
line per instruction, and runs of one hart that switches among processes.

## Findings

Where the code does not do what its name or documentation promises, the code is modelled as it is, a lemma
shows the failing case, and the exact condition is proved.

- `map` writes one page too many at level 0 (paging.rs:178 uses the end inclusively), and misses pages when a
  range that descends to level 0 covers or crosses a 2 MiB slot. `PageLimits.ExactOnEveryTreeIff` says exactly
  which requests are exact on every tree, `PageExact.SmallExact` and `PageSuper.SuperExact` which ones are exact
  on the trees the kernel uses.
- Slots strictly inside a window are written as superpages without an alignment check (paging.rs:202-207).
  `PageLimits.KeepsTreesIff` gives the exact condition, `PageLimits.FirstTrap` the failing lookup, and
  `PageLimits.SkewedRequest` such a request.
- So the kernel window of the bootloader is right for some payloads only; `PageBoot.BootWindowIff` says for which, and
  `PageBoot.UnfitPayload` names one for which it is not.
- `query` truncates the physical address to 12+9*LEVELS bits (paging.rs:150-157): `PageWalk.TruncatedAnswer` is a
  failing table, `PageWalk.QueryRefinesWalk` the exact condition on the answer, `PageRuns.SmallAnswersIff` and
  `PageRuns.SuperAnswersIff` the exact condition on the arguments of `map`.
- The write-only test of `query` compares bit 2 with 1 and never succeeds (paging.rs:103), its reserved-bit test
  looks at bit 60 only (paging.rs:105), against the documentation in lib.rs:79-84, and a valid entry without R, W, X
  and address counts as a leaf (lib.rs:161-165). `PageWalk.ReservedTests` says what the tests do,
  `PageWalk.AcceptedButRefused` and `PageWalk.WriteOnlyFollowed` give accepted entries of each kind, as leaves and as
  a pointer, and `PageWalk.MemoryVersusWalk` says on any memory exactly when `query` answers where the architecture's
  walk faults, and the converse.
- The skip after a node name in the device tree parser is one word short for three name lengths out of four
  (fdt.rs:300-312): `FdtFlat.ShortSkip` says which, `FdtFlat.LeftoverWord` and `FdtFlat.ReadBegin` why the parser
  recovers.
- `guess` takes a number whose bytes look like text for a string (fdt.rs:185-215): `FdtFlat.NumberTakenForText`, with
  `FdtValue.GuessIff` for values of every length and `FdtFlat.GuessNumberIff` and `FdtFlat.GuessLongIff` for the
  numbers.
- The reader/writer lock word wraps at 2^63 readers: `SpinRwLock.WriterAmongReaders`, with the exact step in
  `SpinRwLock.RunExclusionIff`. A build with overflow checks stops at the addition instead.
- Two harts that lock for the first time can race on the count vector, and the later resize cuts off the other's
  count (shared/mod.rs:19-28): `SharedLocks.CountLost`, with `SharedLocks.RunDisciplineIff` for the exact condition.
- `try_lock` of the shared locks takes the inner lock before it clears `sie`: `SharedLocks.TryLockWindow`, with
  `SharedLocks.HandlerFindsNoLock` for the exact extent.
- The lock for futures can lose a wake-up when a guard drop runs between a refused attempt and the registration
  of its waker (`AsyncRwLock.LostBeforeRegister`), or when a waker joins the list between the wake loop and the
  clearing (`AsyncRwLock.LostAtClear`); `AsyncRwLock.RunRememberedIff` is the exact condition.
- The comment at trap.S:160 says that setting SPP returns to user mode; the code sets it and returns to
  supervisor mode. The model follows the code; `ContextRuns.ResumedIs` states the bit.

## Model

| member | source | states |
|---|---|---|
| `PageArith.VpnIsDigit` | kernel/kernel_paging/src/paging.rs:53-73 | `get_vpn_number` is the leading base-512 digit of an address inside its enclosing slot, and digit and remainder rebuild that offset |
| `PageArith.OrIsSum` | kernel/kernel_paging/src/lib.rs:184-187 | the bitwise or of an aligned address with flags is their sum, for numbers with no common bits |
| `PageArith.EntryBits` | kernel/kernel_paging/src/lib.rs:30-47 | each flag test on an entry says that setting bit 1, 2, 4 or 8 changes nothing |
| `PageTree.SplitEntry` | kernel/kernel_paging/src/lib.rs:180-187 | every entry of a split table has the parent's flags and permissions and points `j` sub-pages further |
| `PageTree.SplitMeaning` | kernel/kernel_paging/src/lib.rs:172-194 | a leaf, valid or not, and the 512-entry table that replaces it mean the same at every offset of the slot |
| `PageQuery.SplitAnywhere` | kernel/kernel_paging/src/lib.rs:167-194 | splitting any aligned or invalid leaf of any tree leaves the answer of every `query` unchanged |
| `PageQuery.SplitQuery` | kernel/kernel_paging/src/lib.rs:172-194 | the same for one slot: the split table answers every address as the leaf did |
| `PageMap.PteMeaning` | kernel/kernel_paging/src/paging.rs:181-231 | the entry written by wrapping arithmetic holds exactly `a + pa - va` modulo 2^56, the requested flags, and nothing above bit 53 |
| `PageMap.WrittenIsLeafIff` | kernel/kernel_paging/src/paging.rs:225-232 | a written entry is a leaf if and only if the flags do not spell a table pointer (valid without R and X), or its address field is zero; for any flags |
| `PageMap.UnsplitAligned` | kernel/kernel_paging/src/paging.rs:193-206 | a superpage slot that is written without a split has both addresses congruent at its size; this is what the four misalignment tests buy |
| `PageMap.MapWF` | kernel/kernel_paging/src/paging.rs:163-250 | `map` keeps every tree well formed: aligned superpages, usable permissions, no reserved bits, 512 entries per table |
| `PageMeaning.MapSound` | kernel/kernel_paging/src/paging.rs:163-250 | after `map`, every address of the space translates by the constant shift of the request if its slot was written and exactly as before otherwise; the windows alone decide which |
| `PageExact.SmallHit` | kernel/kernel_paging/src/paging.rs:177-233 | for a range inside one 2 MiB slot the written pages are exactly the range, plus one page unless the range ends on a 2 MiB boundary |
| `PageExact.SmallExact` | kernel/kernel_paging/src/paging.rs:177-233 | on any prior tree, including superpages split several times, such a range moves by `pa - va` and nothing outside it and that one page changes |
| `PageSuper.SuperHit` | kernel/kernel_paging/src/paging.rs:192-228 | for whole level-k pages with no table under them, exactly the range is written |
| `PageSuper.SuperExact` | kernel/kernel_paging/src/paging.rs:192-228 | for every level k >= 1 such a request installs exactly `v -> v + pa - va` on the range and changes nothing else |
| `PageLimits.KeepsTreesIff` | kernel/kernel_paging/src/paging.rs:187-233 | `map` keeps all well-formed trees well formed if and only if, at every level whose window has an interior slot, the two addresses are congruent modulo that level's page size |
| `PageLimits.FirstTrap` | kernel/kernel_paging/src/paging.rs:225-228 | when that congruence fails, the call already breaks the empty address space: it names an address whose lookup meets a misaligned superpage |
| `PageLimits.SkewedRequest` | kernel/kernel_paging/src/paging.rs:202-228 | such a request exists: three megapages with a target one page off |
| `PageLimits.ExactOnEveryTreeIff` | kernel/kernel_paging/src/paging.rs:177-185 | a sound request remaps exactly its own range on every tree if and only if it starts inside a 2 MiB slot and ends at that slot's end; the extra page and the missed pages are shown on a concrete tree for every other request |
| `PageQuery.Assemble` | kernel/kernel_paging/src/paging.rs:137-157 | the two digit loops of `query` compute the page numbers below the leaf from the virtual address and the rest from the entry |
| `PageQuery.CheckAligned` | kernel/kernel_paging/src/paging.rs:130-132 | the assertion loop succeeds exactly on leaves whose lower page numbers are all zero |
| `PageQuery.AlignedIff` | kernel/kernel_paging/src/paging.rs:130-132 | on entries without reserved bits the assertion loop tests exactly that the physical page is aligned to its level |
| `PageQuery.QueryMeaning` | kernel/kernel_paging/src/paging.rs:83-161 | on every well-formed tree `query` answers with the tree's translation of the low address bits, truncated to the virtual address width, or with an invalid entry; it never reaches its assertion |
| `PageQuery.TripPanics` | kernel/kernel_paging/src/paging.rs:126-132 | a valid but misaligned superpage makes the assertion of `query` fail |
| `PageWalk.WalkMeaning` | kernel/kernel_paging/src/paging.rs:84-157 | the page walk of section 4.3.2 of the RISC-V Privileged Architecture over the words in memory computes the meaning of the stored tree |
| `PageWalk.QueryRefinesWalk` | kernel/kernel_paging/src/paging.rs:83-161 | on well-formed trees `query` faults exactly when that walk does, and gives the same physical address if and only if that address is below 2^(12+9*LEVELS) |
| `PageWalk.MemoryVersusWalk` | kernel/kernel_paging/src/paging.rs:83-161 | on any memory, with any words: exactly when `query` answers where the walk faults (at a reserved pointer word that it follows, where the two part, or at a last word it should refuse), exactly when it fails where the walk arrives, and that both agree up to truncation when all pointers are followed alike |
| `PageWalk.WriteOnlyFollowed` | kernel/kernel_paging/src/paging.rs:97-122 | a memory whose root holds a write-only superpage: the walk faults, `query` follows the word as a table pointer and answers |
| `PageWalk.MemoryIsTree` | kernel/kernel_paging/src/paging.rs:83-161 | on memory that stores a tree whose leaves above level 0 look like leaves, the loop over words answers by the tree |
| `PageWalk.QueryVersusWalk` | kernel/kernel_paging/src/paging.rs:83-161 | on every such stored tree, well formed or not: `query` gives an address where the walk faults if and only if the leaf word over the address passes its tests and is write-only, has reserved bits other than bit 60, or is a null pointer the walk does not resolve; it never faults where the walk succeeds; elsewhere they agree up to truncation |
| `PageWalk.WordVersusWalk` | kernel/kernel_paging/src/paging.rs:97-132 | the same iff for a single word at any level |
| `PageWalk.ReservedTests` | kernel/kernel_paging/src/paging.rs:103-107 | the write-only test never succeeds, and the reserved-bit test succeeds exactly on valid words with bit 60 set |
| `PageWalk.PointerAgreeIff` | kernel/kernel_paging/src/lib.rs:161-199 | `query` and the walk go on to the same table exactly from valid words without R, W and X, without bits 54 and up and bits 8 and 9, and with a non-zero address |
| `PageWalk.AcceptedButRefused` | kernel/kernel_paging/src/paging.rs:103-107 | three stored tables on which `query` answers and the walk faults: a writable executable page without R, a page with bit 54 set, a null pointer |
| `PageWalk.TruncatedAnswer` | kernel/kernel_paging/src/paging.rs:150-157 | a well-formed table that maps address 0 to 2^39, where `query` answers 0 |
| `PagePlaced.SlotFrame` | kernel/kernel_paging/src/lib.rs:129-155 | what a table entry encodes depends only on the pages of its own subtree |
| `PagePlaced.PutKid` | kernel/kernel_paging/src/lib.rs:188-189 | replacing one subtree in memory, with new pages taken from outside the tree, replaces it in the stored tree and keeps tables unshared |
| `PageTables.FillSplit` | kernel/kernel_paging/src/lib.rs:179-187 | the fill loop of `split` produces the split table whatever the fresh table contained |
| `PageTables.Paging.Split` | kernel/kernel_paging/src/lib.rs:172-194 | one fresh page leaves the pool, holds the split table, and the entry becomes a pointer to it; no other word changes |
| `PageTables.Paging.MapOneSlot` | kernel/kernel_paging/src/paging.rs:187-233 | one loop iteration turns one slot into the result of the tree function and leaves all siblings, and all memory outside the table, alone; for any flags |
| `PageTables.Paging.MapInternal` | kernel/kernel_paging/src/paging.rs:164-234 | the recursive in-place loop writes exactly the tree function `MapTable` into memory; tables stay unshared and new ones come from the pool; for any flags |
| `PageTables.Paging.Map` | kernel/kernel_paging/src/paging.rs:163-250 | `map` in place, for any flags: the stored tree becomes the mapped tree, still without sharing, and no page outside the tree is written |
| `PageTables.SplittableMapsOver` | kernel/kernel_paging/src/paging.rs:187-218 | trees whose leaves above level 0 look like leaves and can be split satisfy what `Map` asks of the slots it meets, for every request |
| `PageTables.WFSplittable` | kernel/kernel_paging/src/lib.rs:161-187 | well-formed trees are such trees |
| `PageTables.MapSplittable` | kernel/kernel_paging/src/paging.rs:163-250 | and remain such trees after every call whose flags do not spell a table pointer |
| `PageTables.Paging.Query` | kernel/kernel_paging/src/paging.rs:83-161 | the word-by-word walk with its assertion and digit loops, on any memory, gives the answer of `QueryMemory` |
| `PageTables.HeldQuery` | kernel/kernel_paging/src/paging.rs:83-161 | which is the answer by the tree that the memory holds |
| `PageRuns.RunMeaning` | kernel/kernel_paging/src/paging.rs:163-250 | over any sequence of sound `map` calls the tree stays well formed and every address translates by the last call that wrote its slot |
| `PageRuns.RunQuery` | kernel/kernel_paging/src/paging.rs:83-250 | after any such sequence `query` gives that translation and its misaligned-superpage assertion cannot fail |
| `PageRuns.SmallAnswersIff` | kernel/kernel_paging/src/paging.rs:83-250 | after a request inside one 2 MiB slot, `query` answers the whole range with the requested addresses if and only if there are five levels or the physical range ends at or below 2^(12+9*LEVELS) |
| `PageRuns.SuperAnswersIff` | kernel/kernel_paging/src/paging.rs:83-250 | the same after a request for whole superpages with no table under them |
| `PageRuns.BootMeaning` | kernel/kernel_bootloader/src/main.rs:99-138 | from a zero table, the three boot calls with a padded payload under 2 MiB map the low half to itself, the kernel window and one page after it to the payload, and the rest of the high half to physical memory |
| `PageRuns.BootQuery` | kernel/kernel_main/src/main.rs:125-169 | `query(phys_to_virt(p))` is `p` for all p < 2^38 outside the alias of the kernel window and its extra page, and the query of the kernel base returns the payload address |
| `PageRuns.Padded` | kernel/kernel_bootloader/src/main.rs:125 | the mapped length is page aligned, longer than the payload, and by at most 4096 bytes |
| `PageBoot.LeavesAnswer` | kernel/kernel_paging/src/paging.rs:163-250 | one `map` call on a table of leaves, at any level: what `query` answers afterwards for every address, decided by the windows and the misalignment tests, including the assertion that fails on a misaligned superpage |
| `PageBoot.SplitsIff` | kernel/kernel_paging/src/paging.rs:193-206 | with wrapping shifts resolved, a slot is split exactly at an end of the window at which the virtual or the physical address is misaligned |
| `PageBoot.BootAnswer` | kernel/kernel_bootloader/src/main.rs:99-138 | for every payload that fits below the top of the address space: the answer of `query` for every address of the boot page table |
| `PageBoot.BootOutside` | kernel/kernel_bootloader/src/main.rs:99-138 | below the kernel window the answers are the physical halves, whatever the payload |
| `PageBoot.BootWindowIff` | kernel/kernel_bootloader/src/main.rs:125-138 | `query` sends every byte of the kernel window to its byte of the payload if and only if the padded length is under 2 MiB, or the payload is 2 MiB aligned (and the length is at most 1 GiB, or the payload is 1 GiB aligned, or the length is 2 GiB or one page less), or the padded length is one page short of 4 MiB |
| `PageBoot.PayloadShown` | kernel/kernel_bootloader/src/main.rs:125-138 | `query` of 0x7f_8000_0000 + y is byte y of the payload, for every byte of every payload whose padded length is under 2 MiB or meets the condition of `BootWindowIff` |
| `PageBoot.UnfitPayload` | kernel/kernel_bootloader/src/main.rs:125-138 | a payload for which it goes wrong: a padded length of 2 MiB at an address off 2 MiB alignment |
| `Executor.NoLostWake` | kernel/kernel_executor/src/send_executor.rs:25-162 | in every interleaving of the polling loop with any number of wakers, whenever the loop is between polls and the wake queue is not empty, the ready flag is set or some wake call is still on its way to it |
| `Executor.WakeStep` | kernel/kernel_executor/src/send_executor.rs:148-162 | every single step keeps that invariant, including the registration of the outer waker before the wake queue is taken |
| `Executor.TasksConserved` | kernel/kernel_executor/src/send_executor.rs:57-130 | in every run each spawned task is in exactly one of the spawn queue, one slot, or completed, and no slot holds a completed task |
| `Executor.PlaceContents` | kernel/kernel_executor/src/send_executor.rs:113-130 | placing a task in the first empty slot or a new one adds exactly that task and disturbs no other |
| `Executor.SlotsArePeak` | kernel/kernel_executor/src/send_executor.rs:113-130 | the slot vector is exactly as long as the largest number of tasks ever in slots at once |
| `ExecutorPolls.WokenArePolled` | kernel/kernel_executor/src/send_executor.rs:98-105 | polling the woken slots empties exactly the slots that the queue names at a place whose poll finishes, completes exactly their tasks, and changes nothing else |
| `ExecutorPolls.TakenArePolled` | kernel/kernel_executor/src/send_executor.rs:98-105 | the same from the moment the loop takes the wake queue, which is empty afterwards |
| `ExecutorPolls.WakeReachesSlot` | kernel/kernel_executor/src/send_executor.rs:25-38 | a wake call that pushes its index before the queue is taken gets its own slot polled: the task in it is completed if that poll finishes |
| `ExecutorPolls.AllArePolled` | kernel/kernel_executor/src/send_executor.rs:107-111 | `poll_all` polls every slot in order: a slot is emptied exactly if its poll finishes |
| `ExecutorPolls.NewIsPolled` | kernel/kernel_executor/src/send_executor.rs:113-129 | the first queued task goes to the first empty slot and is polled there once; it stays or is completed, and no other slot changes |
| `ExecutorPolls.QueueIsDrained` | kernel/kernel_executor/src/send_executor.rs:150-152 | draining the spawn queue takes every queued task, in any number; when all finish exactly they are completed and no other slot changes |
| `ExecutorPolls.AfterAllSlots` | kernel/kernel_executor/src/send_executor.rs:149-154 | after the last slot the whole spawn queue is placed and polled, then the waker is registered once, then the wake queue is taken |
| `ExecutorPolls.AfterWoken` | kernel/kernel_executor/src/send_executor.rs:154-158 | if something was woken, what was spawned meanwhile is placed and polled before the poll ends |
| `ExecutorPolls.NothingWoken` | kernel/kernel_executor/src/send_executor.rs:154-160 | if nothing was woken the poll ends at once and changes nothing |
| `ExecutorPolls.OuterWakersConserved` | kernel/kernel_executor/src/send_executor.rs:32-37 | over every run, the registrations of the outer waker are those still in the list, those in drains under way, and the calls: none is lost and none is called twice |
| `ExecutorPolls.PollsArePaid` | kernel/kernel_executor/src/lib.rs:14-27 | over every run there is never a poll beyond the first that a call of the outer waker has not paid for, and a set flag is a call not yet used |
| `LocalExecutor.WakeCallFollows` | kernel/kernel_executor/src/non_send_executor.rs:26-39 | a whole wake call is a run of the transition system that pushes the index and sets the flag if any outer waker was registered |
| `LocalExecutor.FollowsKeeps` | kernel/kernel_executor/src/non_send_executor.rs:133-163 | both run invariants survive any actions |
| `LocalExecutor.LocalExecutor.PollFuture` | kernel/kernel_executor/src/non_send_executor.rs:77-93 | polling one slot, with whatever the task wakes or spawns meanwhile, is a run of the transition system |
| `LocalExecutor.LocalExecutor.PushTask` | kernel/kernel_executor/src/non_send_executor.rs:114-130 | the search loop finds the first empty slot, and placing and polling the task is a run of the transition system |
| `LocalExecutor.LocalExecutor.WakePending` | kernel/kernel_executor/src/non_send_executor.rs:99-106 | draining the wake queue and polling what it named is a run of the transition system, so `TakenArePolled` holds of it, and the result tells whether it was empty |
| `LocalExecutor.LocalExecutor.PollHandle` | kernel/kernel_executor/src/non_send_executor.rs:146-163 | a whole poll of the handle is a run from the first slot back to the place between polls |
| `LocalExecutor.LocalExecutor.Turn` | kernel/kernel_executor/src/lib.rs:14-27 | one turn of the endless loop polls exactly if the flag was set and keeps: queued wake-ups imply the flag, every task in one place, an outer waker registered or the flag set |
| `LocalExecutor.LocalExecutor.WakeBetween` | kernel/kernel_executor/src/non_send_executor.rs:26-39 | a wake call between polls appends its index, empties the list of outer wakers, and always leaves the ready flag set |
| `LocalExecutor.LocalExecutor.SpawnBetween` | kernel/kernel_executor/src/non_send_executor.rs:57-61 | a spawn between polls adds one task to the spawn queue and keeps the invariant |
| `FdtValue.ScanLoop` | kernel/kernel_chip_drivers/src/fdt.rs:185-202 | the scan loop decides string and string list as the recursive specification does |
| `FdtValue.GuessLoop` | kernel/kernel_chip_drivers/src/fdt.rs:181-229 | `guess` with its two loops computes the specification on all byte strings |
| `FdtValue.GuessIff` | kernel/kernel_chip_drivers/src/fdt.rs:181-229 | for values of every length: text exactly if all bytes but the last are printable or single NULs after a printable byte, a list exactly if one of those is a NUL; 4 and 8 bytes are numbers, and other lengths raw, exactly otherwise |
| `FdtValue.GuessDecodes` | kernel/kernel_chip_drivers/src/fdt.rs:203-212 | two or more non-empty printable strings come back exactly from their NUL-terminated concatenation |
| `FdtValue.GuessEncodes` | kernel/kernel_chip_drivers/src/fdt.rs:203-212 | any string list guessed from NUL-terminated bytes encodes back to those bytes |
| `FdtFlat.GuessNumberIff` | kernel/kernel_chip_drivers/src/fdt.rs:191-227 | a 32-bit property is read back as its number (or raw phandle) if and only if its first three bytes do not look like text; all values below 0x2000_0000 are |
| `FdtFlat.GuessLongIff` | kernel/kernel_chip_drivers/src/fdt.rs:191-219 | a 64-bit property is read back as its number if and only if its first seven bytes do not look like text; all values below 0x2000_0000_0000_0000 are |
| `FdtFlat.NumberTakenForText` | kernel/kernel_chip_drivers/src/fdt.rs:185-215 | 0x41414141 and its 64-bit double are taken for strings |
| `FdtFlat.HighestFirst` | kernel/kernel_chip_drivers/src/fdt.rs:209-219 | words are written and read with the highest byte first |
| `FdtTree.OneToken` | kernel/kernel_chip_drivers/src/fdt.rs:293-363 | one iteration of the token loop advances the parser as specified for every token, including truncated and unknown ones |
| `FdtTree.Build` | kernel/kernel_chip_drivers/src/fdt.rs:287-366 | the loop over token pointer, node stack and current node computes the parser specification and ends on every blob |
| `FdtFlat.Tokens` | kernel/kernel_chip_drivers/src/fdt.rs:293-363 | the five tokens are 1, 2, 3, 4 and 9, and the property name known to `guess` is `interrupt-parent` |
| `FdtFlat.NameAtOffset` | kernel/kernel_chip_drivers/src/fdt.rs:317-340 | a property name is the string at its offset into the strings block, up to the first NUL |
| `FdtFlat.ShortSkip` | kernel/kernel_chip_drivers/src/fdt.rs:300-312 | the skip over BEGIN_NODE and a name of n bytes is a word short if and only if n is not 3 modulo 4, and then by exactly one word |
| `FdtFlat.LeftoverWord` | kernel/kernel_chip_drivers/src/fdt.rs:300-312 | when the skip over a node name is one word short, the word left over is never a recognised token |
| `FdtFlat.ReadBegin` | kernel/kernel_chip_drivers/src/fdt.rs:294-316 | resynchronisation: BEGIN_NODE and its padded name are consumed completely for every name length |
| `FdtFlat.ReadItems` | kernel/kernel_chip_drivers/src/fdt.rs:317-356 | properties, NOPs and nested nodes are consumed in order and end up in the current node, whatever follows |
| `FdtFlat.BuildFlatten` | kernel/kernel_chip_drivers/src/fdt.rs:287-366 | `build` on the flattening of any tree, with NOPs anywhere allowed, returns the tree it denotes |
| `FdtFlat.ExampleBytes` | kernel/kernel_chip_drivers/src/fdt.rs:287-366 | the bytes of the flattening of a small tree with a property, a NOP and a child, written out |
| `FdtFlat.DenoteContent` | kernel/kernel_chip_drivers/src/fdt.rs:104-117 | that tree has, under each key, the last sibling with the key, and for each property name the last value, and nothing else |
| `FdtFlat.EveryChildKept` | kernel/kernel_chip_drivers/src/fdt.rs:104-117 | with distinct sibling keys no child is lost |
| `FdtPath.TokenKey` | kernel/kernel_chip_drivers/src/fdt.rs:32-45 | a node name followed by `@` and a printed unit address has exactly that name and that address, and one without `@` has no address |
| `FdtPath.TokenUnit` | kernel/kernel_chip_drivers/src/fdt.rs:36-39 | any other address is read as the number its digits spell if that fits a word, and as 0 otherwise |
| `FdtPath.HexDigitsIff` | kernel/kernel_chip_drivers/src/fdt.rs:36-39 | digits are read exactly if all of them are hexadecimal and their value fits a word |
| `FdtPath.DigitCharacters` | kernel/kernel_chip_drivers/src/fdt.rs:36-39 | the sixteen digits, printed in lower case and read in either |
| `FdtPath.ChildFound` | kernel/kernel_chip_drivers/src/fdt.rs:104-117 | `build` on the flattening of any source whose siblings have distinct keys: a child with the token `name@address` is found under that name and that address |
| `FdtPath.PlainChildFound` | kernel/kernel_chip_drivers/src/fdt.rs:104-117 | and one without an address under its name and no address |
| `FdtPath.HexRoundTrip` | kernel/kernel_chip_drivers/src/fdt.rs:36-39 | a unit address printed in hexadecimal reads back as itself |
| `FdtPath.AnyUnitFindsChild` | kernel/kernel_chip_drivers/src/fdt.rs:53-59 | `get` of a component ending in `@` returns the child of that name without unit address if there is one, else one whose address is at most every other |
| `FdtPath.GetIsDescend` | kernel/kernel_chip_drivers/src/fdt.rs:46-78 | `get` of any printed path finds the node whose keys are looked up one after another, and nothing if one of them is missing |
| `FdtPath.GetPath` | kernel/kernel_chip_drivers/src/fdt.rs:46-94 | joining the printed components of a chain of nodes and looking the path up returns the last node |
| `FdtPath.BuiltPath` | kernel/kernel_chip_drivers/src/fdt.rs:46-117 | in every tree that `build` returns, from any blob, this holds for every descendant whose names contain no slash |
| `FdtPath.DenotedPath` | kernel/kernel_chip_drivers/src/fdt.rs:46-117 | in particular in the tree of a flattened source |
| `FdtPath.BuiltKeys` | kernel/kernel_chip_drivers/src/fdt.rs:287-366 | in every tree that `build` returns, from any blob and at any depth, each child hangs under its own name and unit address, names have no `@`, and no name is present without a child |
| `SpinRwLock.ExclusionHolds` | kernel/kernel_lock/src/spin/rwlock.rs:19-73 | in every interleaving of loads, compare-and-swaps and unlocks with fewer than 2^63 readers so far, there is at most one writer and never one beside a reader, and the word is twice the readers plus the writers if and only if there are still fewer than 2^63 readers |
| `SpinRwLock.RunExclusionIff` | kernel/kernel_lock/src/spin/rwlock.rs:19-73 | without any bound: exclusion holds throughout a run if and only if no step is an exclusive swap on an unchanged word while the readers are a positive multiple of 2^63 |
| `SpinRwLock.BreaksIff` | kernel/kernel_lock/src/spin/rwlock.rs:57-68 | that is the only step that breaks exclusion, and it always does |
| `SpinRwLock.TryLockIsAtomic` | kernel/kernel_lock/src/spin/rwlock.rs:23-70 | despite stale loads each `try_lock` is one atomic step of the abstract lock: it succeeds exactly if the lock admits it at the step that returns |
| `SpinRwLock.RetryMeansProgress` | kernel/kernel_lock/src/spin/rwlock.rs:29-39 | a compare-and-swap fails only if an unlock or another thread's acquisition changed the word since the load |
| `SpinRwLock.WriterAmongReaders` | kernel/kernel_lock/src/spin/rwlock.rs:29-34 | the bound is needed: a complete run with 2^63 readers in which the word wraps and a writer enters beside them |
| `SpinRwLock.RawSpinRwLock.TryLock` | kernel/kernel_lock/src/spin/rwlock.rs:23-70 | under any finite interference the retry loop ends and acts on exactly the word of its last access |
| `SpinRwLock.RawSpinRwLock.Unlock` | kernel/kernel_lock/src/spin/rwlock.rs:43-73 | the wrapping subtraction leaves the word of the remaining guards |
| `SharedLocks.DisciplineHolds` | kernel/kernel_lock/src/shared/mod.rs:19-47 | over every run of all harts and their handlers in which no count is cut off: the count is the guards held plus operations in progress; at rest `sie` is zero exactly while the count is positive |
| `SharedLocks.RunDisciplineIff` | kernel/kernel_lock/src/shared/mod.rs:19-47 | a run is disciplined throughout if and only if no resize of the count vector cuts off a count that is in use or about to be raised |
| `SharedLocks.CountLost` | kernel/kernel_lock/src/shared/mod.rs:19-28 | that race is real: a run of two harts after which one is about to lower a count that no longer exists |
| `SharedLocks.UndisturbedIsOrderly` | kernel/kernel_lock/src/shared/mod.rs:19-28 | no count is cut off when nobody makes the vector longer between a hart's look at its length and its resize |
| `SharedLocks.EnablesAtZero` | kernel/kernel_lock/src/shared/mod.rs:40-47 | the count returns to zero only in a step followed, on that hart, by the write of 0x222, and `sie` changes in no other way than that write and the clearing before a lock |
| `SharedLocks.OwningHolds` | kernel/kernel_lock/src/shared/rwlock.rs:18-75 | each inner lock counts exactly the guards owned by all harts and handlers together, including one just taken by a `try_lock` |
| `SharedLocks.ExclusiveAlone` | kernel/kernel_lock/src/shared/mutex.rs:22-39 | a lock owned exclusively on one hart is owned on no other, in any kind |
| `SharedLocks.CanRelease` | kernel/kernel_lock/src/shared/mutex.rs:36-39 | whoever owns a guard can release it, and the count that is lowered exists and is positive |
| `SharedLocks.HandlerFindsNoLock` | kernel/kernel_lock/src/shared/mod.rs:31-37 | code interrupted by a handler owns no lock, unless it was interrupted in a `try_lock` between taking the inner lock and clearing `sie`; then it owns exactly that one |
| `SharedLocks.TryLockWindow` | kernel/kernel_lock/src/shared/mutex.rs:27-34 | that exception is real: a two-step run after which a hart's handler is refused a lock its own hart holds |
| `SharedLocks.HartLockCount.CreateEntryIfNecessary` | kernel/kernel_lock/src/shared/mod.rs:19-28 | the vector grows to the index with zero counts and no existing count changes |
| `SharedLocks.HartLockCount.LockAndDisable` | kernel/kernel_lock/src/shared/mod.rs:31-37 | outside a handler interrupts are disabled and this hart's count, and no other, rises by one |
| `SharedLocks.HartLockCount.UnlockAndEnable` | kernel/kernel_lock/src/shared/mod.rs:40-47 | this hart's count falls by one and 0x222 is written exactly if it reached zero |
| `SharedOperations.WholeLock` | kernel/kernel_lock/src/shared/rwlock.rs:18-26 | a whole lock of one hart on a free lock: the hart owns one guard more, `sie` is 0, its count is one more, the lock has one reader more or its one writer, and nothing else changes |
| `SharedOperations.WholeTryLock` | kernel/kernel_lock/src/shared/rwlock.rs:28-35 | a whole attempt does the same if there is no writer, nor, for an exclusive one, a reader, and otherwise changes nothing |
| `SharedOperations.LockUnlock` | kernel/kernel_lock/src/shared/rwlock.rs:37-45 | a release undoes a lock: locks, guards and counts are as before, and `sie` is 0x222 exactly if the hart owned nothing else |
| `SharedOperations.HandlerTakes` | kernel/kernel_lock/src/shared/mod.rs:31-37 | in a handler an attempt changes the inner lock and the handler's guards alone |
| `AsyncRwLock.RememberedIff` | kernel/kernel_lock/src/future/rwlock.rs:43-107 | access by access, with the wake loop waker by waker: no waiter is forgotten if and only if the access is neither the start of a wake loop between a refused attempt and its registration with the lock free and no other drop to come, nor a clearing of a waker registered after the wake loop |
| `AsyncRwLock.RunRememberedIff` | kernel/kernel_lock/src/future/rwlock.rs:43-107 | a run of single accesses remembers every waiter throughout if and only if all its accesses are of the harmless kind |
| `AsyncRwLock.LostBeforeRegister` | kernel/kernel_lock/src/future/rwlock.rs:61-73 | a concrete run in which a wake-up is lost: the lock is free, nothing is in progress and a pending writer will not be woken |
| `AsyncRwLock.LostAtClear` | kernel/kernel_lock/src/future/rwlock.rs:92-107 | a concrete run through the second window: a pending writer is cleared from the list unwoken, and the next drop finds the list empty |
| `AsyncRwLock.StaysLost` | kernel/kernel_lock/src/future/rwlock.rs:92-107 | no action but its own poll or cancellation reaches a pending future that is outside the list |
| `AsyncRwLock.WholeRun` | kernel/kernel_lock/src/future/rwlock.rs:43-107 | with each poll and each guard drop as one step: a waker in the list implies the lock is held, each pending future is in the list or woken since its last poll, and when the lock is free all are woken |
| `AsyncRwLock.PollTakes` | kernel/kernel_lock/src/future/rwlock.rs:43-73 | in numbers: a poll of a reader adds one reader unless there is a writer, one of a writer enters a free lock only, and a refused poll takes nothing and leaves its waker |
| `AsyncRwLock.TwoReaders` | kernel/kernel_lock/src/future/rwlock.rs:43-56 | two read futures polled in turn on a free lock both get it; a writer polled second waits |
| `AsyncRwLock.DropGivesBack` | kernel/kernel_lock/src/future/rwlock.rs:92-107 | a drop gives back one guard of its own kind |
| `AsyncRwLock.WakeRestIs` | kernel/kernel_lock/src/future/rwlock.rs:92-107 | a wake loop that runs to its end wakes exactly the waiters from its position on |
| `AsyncRwLock.RawAsyncRwLock.PollFuture` | kernel/kernel_lock/src/future/rwlock.rs:43-73 | a poll takes a guard of its own kind, in numbers, exactly if it is admitted and otherwise leaves its waker; the invariant is kept |
| `AsyncRwLock.RawAsyncRwLock.ForceUnlock` | kernel/kernel_lock/src/future/rwlock.rs:92-107 | the drop removes one guard, wakes every waiter in the list and empties it; the invariant is kept |
| `TrapCode.StoredReads` | kernel/kernel_main/src/asm/trap.S:31-35 | a repeated store block puts each register into its own word and touches no address outside the block |
| `TrapCode.ContextInBytes` | kernel/kernel_main/src/asm/trap.S:17-93 | where the saved context is in a frame, in bytes: registers from 0, program counter at 256, page table at 296; a resumed context has `sie` 0x222 |
| `TrapCode.ParkedInBytes` | kernel/kernel_main/src/asm/trap.S:255-272 | the call of a switch is parked with its registers, the stack pointer lowered by 16, its return point at 256 and its return address on the stack |
| `TrapCode.NewFrame` | kernel/kernel_trap_frame/src/lib.rs:45-52 | the ten words after the registers of a new frame: 33, 35, 36 and 39 are those of the current frame, 37 and 38 the page table, and all others 0 |
| `TrapCode.Hart.StoreVolatileRegisters` | kernel/kernel_main/src/asm/trap.S:17-62 | all 32 registers are saved with their old values although the base register is one of them, and `sscratch` is back |
| `TrapCode.Hart.RestoreVolatileRegisters` | kernel/kernel_main/src/asm/trap.S:64-93 | all registers are loaded from the frame although the base register is overwritten by the last load |
| `TrapCode.Hart.SwitchToSupervisorFrame` | kernel/kernel_main/src/asm/trap.S:146-167 | the context of the frame in `a0` becomes current: registers, program counter, page table |
| `TrapCode.Hart.TrapHandler` | kernel/kernel_main/src/trap_handler.rs:23-40 | the handler acknowledges the interrupt and jumps to the frame that the current frame names, or returns if it names none |
| `TrapCode.Hart.Acknowledge` | kernel/kernel_main/src/trap_handler.rs:8-20 | a timer interrupt moves the timer out of reach, a software interrupt clears its pending bit, everything else stays |
| `TrapCode.InterruptCleared` | kernel/kernel_main/src/trap_handler.rs:8-34 | after a whole trap the software or timer interrupt that caused it is not pending, and no other pending state changed |
| `TrapCode.CauseCodes` | kernel/kernel_main/src/trap_handler.rs:8-20 | an interrupt has the top bit of the cause set; software is 1 and timer is 5 |
| `TrapCode.Hart.EnterVector` | kernel/kernel_main/src/asm/trap.S:102-126 | before the handler runs, registers and interrupted pc are in the current frame, and the handler gets the kernel page table and the interrupt stack |
| `TrapCode.Hart.TrapVector` | kernel/kernel_main/src/asm/trap.S:102-141 | a whole trap saves the interrupted context in the current frame and goes on in the named context or in the interrupted one |
| `TrapCode.Hart.StoreToTrapFrame` | kernel/kernel_main/src/asm/trap.S:259-272 | the return address goes on the stack, every register into the frame, and the frame resumes at the return point |
| `TrapCode.Hart.NewTrapFrame` | kernel/kernel_process/src/lib.rs:45-49 | the new frame is `NewFrame`, and no other memory changes |
| `TrapCode.Hart.SwitchIn` | kernel/kernel_process/src/lib.rs:39-58 | the whole switch into a process, from the call to the first instruction of the process, which is marked as running |
| `TrapCode.Hart.ComeBack` | kernel/kernel_process/src/lib.rs:53-60 | the way back from the return point to the caller, after which the process is paused |
| `ContextRuns.SwitchKeeps` | kernel/kernel_process/src/lib.rs:39-60 | a switch parks the kernel completely and changes the context of no process |
| `ContextRuns.SwitchInherits` | kernel/kernel_process/src/lib.rs:45-49 | after a switch the frame of the parked call has the hart, the flags, the locals and the interrupt stack of the frame that was current, and its page table |
| `ContextRuns.TrapKeeps` | kernel/kernel_main/src/asm/trap.S:102-141 | a trap in a process goes on in the parked call; a trap in the kernel resumes the kernel; no process loses its context |
| `ContextRuns.ReturnKeeps` | kernel/kernel_main/src/asm/trap.S:274-277 | the code at `.before_return` brings back every register and the page table of the call |
| `ContextRuns.RunInv` | kernel/kernel_process/src/lib.rs:39-60 | in every state of every run exactly the process of the call in progress is marked as running, and the call is parked completely |
| `ContextRuns.ContextKept` | kernel/kernel_main/src/asm/trap.S:17-167 | over any switches and traps among processes with distinct frames, a process keeps registers x1 to x31 and its program counter as long as it does not itself run |
| `ContextRuns.ProcessResumes` | kernel/kernel_main/src/asm/trap.S:102-167 | a process resumes with exactly the registers and program counter it had when it was trapped |
| `ContextRuns.KernelResumes` | kernel/kernel_main/src/asm/trap.S:255-277 | the kernel comes back at `.before_return` and from there returns to its caller with every register, and the page table, as at the call, whatever traps came in between; the frame current then has the interrupt stack, hart, flags and locals of the one current at the call |

## Left out

- Sv32 and Sv65: `map` hard-codes 512 slots, and six levels shift past 64 bits.
- PageTables.Paging.Map: requires that what the call meets is recognised for what it is (`PageTables.MapsOver`): a leaf
  that looks like a table pointer would be followed into memory that holds no table. Such leaves are left behind by
  flags that spell a pointer (`PageMap.WrittenIsLeafIff`), or by splitting a null pointer above 2 MiB. It requires
  `va + length` to be positive and below 2^64, where the source's own addition would overflow.
- PageTables.Paging.Split: an allocator without free pages is a result `ok == false`; what memory holds after
  such an abandoned `map` is not described.
- `phys_to_virt` and `virt_to_phys` on table pointers: memory is keyed by physical page, so the two functions are
  taken to be inverse on tables. The permission and accessed/dirty steps of the page walk are not modelled, as in
  `query`. TLB fences are not modelled.
- `Table::boxed_zeroed` writes no zeros (lib.rs:257); a fresh table therefore has arbitrary content here, and the
  zero table of the bootloader is `Table::zeroed`.
- PageRuns.BootQuery: for a padded payload under 2 MiB and a page-aligned payload below 2^38; other payloads are the
  subject of `PageBoot.BootAnswer` and `PageBoot.BootWindowIff`, up to the 2 GiB between the window and the top.
- PageWalk.MemoryVersusWalk: a table pointer to a page that is not in memory, or not page aligned, is the result
  `Outside`; what the kernel reads there is not described.
- Executor.SlotsArePeak: counts tasks that have been placed in slots; a task still in the spawn queue is not yet
  counted as live.
- The Ready/Pending result of the executor futures, tasks that spawn while the spawn queue is being drained
  (which would deadlock on, or panic at, the queue's lock), `run_in_parallel`, and `non_send_waker.rs`.
- UTF-8 validation of names and string values, `link_phandles` and `PHandle` references, `pretty`, the `walk`
  functions, and the header of the blob; strings are byte strings, and reading past the end of the blob is a
  result instead of undefined behaviour.
- FdtPath.GetPath: the inner order of `BTreeMap` matters only for components that end in `@`, which the printed
  paths do not use.
- Memory ordering: all atomics are sequentially consistent. `lock_shared` and `lock_exclusive` of the spin lock
  are repeated `try_lock` calls, so the transition system covers them without a member of their own;
  `RawSpinlock` is the exclusive half of the abstract lock.
- SharedLocks.DisciplineHolds: each guard is released on the hart and in the context that took it, handlers do not
  nest, counts do not wrap at 2^64, and the short read and write locks of the count vector itself are not modelled.
- `future/mutex.rs`, `interrupt/*`, `simple_shared/*`, `local_notify.rs`, `wait_future.rs`, `arcinject`.
- ContextRuns.KernelResumes: the lifetime of the boxed frame after the call returns is not modelled (`sscratch`
  still points to it and the frame is taken to stay as it is), a switch is not itself interrupted, and running code
  is taken not to write into trap frames or the parked return address. Addresses do not wrap around the end of the
  address space.
- The interrupt controller, the texts that `trap_handler` prints, `switch_to_user_frame`, `do_syscall_internal`,
  `store_to_trap_frame`, floating-point registers (skipped by the code as well), and the bits of `sstatus` other than SPP.
- `Process::new_supervisor`: the first frame of a process is whatever memory holds at the start of a run.
- Devices, SBI calls, CSRs other than `sie`, `sscratch`, `sepc`, `satp` and `sstatus`, the allocator, syscalls,
  tools and linker scripts.
