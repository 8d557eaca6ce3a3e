# Verified model of the MCFI runtime

A Dafny model of the trusted runtime of MCFI (modular control-flow integrity) and of the archive symbol map
that its toolchain writes, with proofs. The C code works step by step on memory it shares with the rest of the
process, so most of the model is methods on arrays and on classes; each is proved against a specification
function or a stated property, and the laws about those are lemmas.

`dafny verify dfyconfig.toml` checks everything.

## What is modelled

**Sorting and searching** (`leonardo`, `words`, `heaps`, `smoothsort`, `qsort`, `cyclebytes`,
`elementbytes`, `bsearch`).
`qsort` is smoothsort in place. The string of Leonardo heaps is the list `Orders(p, pshift)` that the two-word
bit vector describes; `sift` and `trinkle` are proved equal to functions on sequences, and each transition of
the two loops is a lemma about those. Positions are element indices and `lp[]` is in units of one element;
`LeonardoTable` covers the table in bytes with its 64-bit arithmetic, `CycleBytes` the moves in bytes through
the 256-byte temporary, and `ElementBytes` proves that these rotate the elements that the bytes hold. Arrays have fewer than `L(64)` elements (`SORT_LIMIT`): from there on the high word of
the bit vector comes into use. The bounds of `ar[]`, `lp[]` and of every shift are proved where they are used.

**The page map** (`pagemap`, `repaint`, `pagerloops`, `pager`, `rockmmap`). A class over an array of entries.
`Map()` is the plain map from page to (prot, maxProt, type) that the entries stand for; `Valid()` says that they
are disjoint, non-empty and unmarked, and in order when so flagged. Every operation is proved to refine an
operation on that map. When every entry is marked for removal the original ends the process; the methods then
return `ok == false`, and say exactly when. (As written the original reads the freed slot 0 on its way to the
message.)

**The version protocol** (`versions`, `protocol`, `checks`, `staleids`, `guarantee`). A state machine: threads enter and leave
system calls, escape, read a BID and drop it, while a generation of the CFG is scanned for (`safe`), filled in
one table entry at a time, compensated and snapshot (`update_thesc`), in any interleaving. Assumed: the reads
and writes of single entries are sequentially consistent and `gen_tary`'s update of an entry is one step; the
runtime calls are serialised (they are, by the spin lock of `runtime_interface.S`); a thread holds no BID across
an escape or inside a system call; threads run code of modules that have been generated; a target of one
generation stays one; a generation has fewer than 125^4 classes; escape counters do not wrap.

A half-id consists of four digits. The comment above `VERSION_SPACE_MAX` excludes two digit values (126^4
versions), but the code that makes half-ids skips three bytes, F4, FC and FE, so there are 125^4 = 244140625
versions, fewer than `VERSION_SPACE_MAX` = 252047376. The guarantee that a passing check is allowed by one
single generation has two exact conditions. Against entries that hold an ID it holds exactly while
`version_space + 1 < 125^4` (`StaleIds.IdsSoundExactly`); beyond that a run lets a stale BID pass. `patch_call` can
also activate an entry before it holds an ID, and such an entry passes for the first class of every generation
with version 0, whatever `version_space` is. Over all entries the guarantee therefore holds exactly while there
have been fewer than 125^4 generations (`Guarantee.SoundExactlyWithin`), and `Guarantee.BlankPasses` is a run that
breaks it with `version_space` 0. `Guarantee.PassesExactly` says of every check, in every reachable state, exactly
when it passes.

**Load-time patching and its inverse** (`codewords`, `loadpatch`, `onlinepatch`). Words in front of return
addresses and at function entries are saved and patched to call two stubs; `patch_call` and `patch_entry` put
them back. Code is an array of bytes; return addresses and entries are multiples of 8, as the runtime asserts.
A word that is patched twice comes back exactly if its call is restored last; the reverse order leaves the
patched call in place for good (`OnlinePatch.EntryAfterCall`; `StaysPatched` is a run that does so, and `TwoLoad`
an image on which it changes the code).

**Thread control blocks** (`tcblist`). The linked list, its marks, and `thread_escape_map`.

**The JIT-code verifier** (`verifier`, `jitcode`). The DFA is any table whose states and bytes stay in range; a
failed assertion or `quit` is a refusal. States that accept direct branches are assumed to accept words long
enough for the opcode and displacement, as `(size + 1) / 2` target slots require. The buffer is not empty: for
an empty one the original tests an uninitialised state.

**The formatter** (`decimal`, `formats`, `directives`, `rendering`, `vsnprintf`, `composition`). `Rendered(fmt, args)`
is the text a format stands for; the writer is proved to put as much of it into the buffer as fits, and
`Composition.RenderedDirective` ties the text to the directives that section 7.19.6.1 of ISO C99 writes. Four
departures from that section are kept as the code has them: widths and precisions are 16-bit counters that the padding loops
count down below zero, so that a field can wrap (`NumberLength` and `StringLength` say exactly when); `%p` swallows
letters and digits after it; an invalid conversion after a `*` consumes nothing; a negative precision, which
C99 takes as none, counts as zero.

**The archive symbol map** (`bytes`, `archive`, `archivewriter`, `archivereader`). The member list, the two map
layouts, the predicted offsets, the whole file, and the two readers. For thin archives the BSD map steps over
contents that are not there; `Archive.BsdThin` says exactly which of its offsets are right.

**The initial stack** (`initialstack`, `buildstack`, `readstack`). Sizes are summed first, then argc, argv, envp
and the auxiliary vector are written with two moving pointers. `ReadAll` reads a stack by section 3.4.1 of the
System V AMD64 psABI, and the two are proved to be inverse. Memory is an array whose indices are addresses.

## Model

| member | source | states |
|---|---|---|
| Leonardo.LeonardoTable | runtime/src/utils.c:154-167 | the table loop stops inside lp[], no entry wraps a 64-bit word, each entry is a Leonardo number times the width, and the last is the first that reaches the size |
| Leonardo.OrderBelow64 | runtime/src/utils.c:157-158 | a heap in an array below the limit has an order that one word of the bit vector can describe |
| Words.ShlLow | runtime/src/utils.c:59-69 | the two-word left shift is a one-word shift while the high word is zero and no bit falls off |
| Words.ShrLow | runtime/src/utils.c:71-81 | the same for the right shift |
| Words.RightOrders | runtime/src/utils.c:28-34 | shifting right by the number of trailing zeros and raising pshift by it describes the same heaps |
| Words.DropLast | runtime/src/utils.c:198-200 | pntz, shr and the new pshift drop exactly the last heap |
| Words.LeftOrders | runtime/src/utils.c:182-186 | shifting left and lowering pshift describes the same heaps |
| Heaps.SiftedFrame | runtime/src/utils.c:86-111 | sifting loses no element and touches only its heap |
| Heaps.SiftedHeap | runtime/src/utils.c:86-111 | sifting a root above two heaps makes one heap, whose root dominates the old root and both children |
| Heaps.TrinkledKeeps | runtime/src/utils.c:113-150 | trinkling loses no element and touches nothing right of the string |
| Heaps.TrinkledString | runtime/src/utils.c:113-150 | trinkling leaves a string of heaps whose roots ascend |
| Heaps.StringMax | runtime/src/utils.c:194-212 | the rightmost root of such a string is a maximum of everything in it |
| Smoothsort.Cycle | runtime/src/utils.c:36-56 | every element of the recorded path moves one place along it, the first goes last; the path fits ar[] with its extra slot |
| Smoothsort.SiftPathRotates | runtime/src/utils.c:86-111 | cycling the recorded path is sifting in place |
| Smoothsort.Sift | runtime/src/utils.c:86-111 | the array becomes the sifted one; every lp[] and ar[] access is in range |
| Smoothsort.TrinklePathRotates | runtime/src/utils.c:113-150 | cycling the recorded path and sifting where it ends is trinkling in place |
| Smoothsort.Trinkle | runtime/src/utils.c:113-150 | the array becomes the trinkled one |
| QSort.FinalSpreads | runtime/src/utils.c:175-176 | once the rightmost heap is final, so are all heaps left of it, and their roots are in order |
| QSort.BuildMerge | runtime/src/utils.c:170-173 | two heaps of consecutive orders and the next element become one heap |
| QSort.BuildFinal | runtime/src/utils.c:175-177 | a heap that can no longer become a left child is trinkled into order |
| QSort.BuildAppend | runtime/src/utils.c:181-187 | the next element becomes a heap of order 0 or 1, and the string keeps its shape |
| QSort.DismantleSingle | runtime/src/utils.c:197-200 | a rightmost singleton is a maximum and stays where it is |
| QSort.SplitReadyRight | runtime/src/utils.c:202-209 | splitting the last heap leaves two strings, each ready to be trinkled |
| QSort.Build | runtime/src/utils.c:169-192 | the building loop ends with a string of heaps over the whole array, a permutation of what it was |
| QSort.Dismantle | runtime/src/utils.c:194-212 | the dismantling loop leaves the array sorted |
| QSort.QSort | runtime/src/utils.c:152-213 | for every total preorder and fewer than L(64) elements, the first nel elements are sorted and a permutation; nothing else changes |
| CycleBytes.Cycle | runtime/src/utils.c:36-56 | blocks of any width move one place along the path through the 256-byte temporary; no other byte changes |
| ElementBytes.RotatedHit | runtime/src/utils.c:36-56 | rotating along a path gives each of its elements the value of the next, the last that of the first |
| ElementBytes.Cycle | runtime/src/utils.c:36-56 | when memory holds elements back to back, moving the bytes leaves it holding the elements rotated along the path |
| BSearch.BSearch | runtime/src/utils.c:5-22 | finds an element equal to the key if and only if there is one |
| PageMaps.CompactedMap | runtime/src/pager.c:147-238 | compaction leaves disjoint live entries that stand for the same map |
| PageMaps.UpdatedPageMap | runtime/src/pager.c:298-362 | trimming, splitting and adding overwrites or removes exactly the region in the map |
| PagerLoops.TrimFromStart | runtime/src/pager.c:321-355 | the loop of VmmapUpdate, which breaks early, trims every entry |
| PagerLoops.RepaintFromStart | runtime/src/pager.c:423-479 | the loop of VmmapChangeProt, which moves the start of the region as it goes, repaints every entry |
| PagerLoops.CheckFromPermits | runtime/src/pager.c:500-518 | the loop of VmmapCheckExistingMapping decides whether every page may have the rights |
| PagerLoops.GapIsFreeRun | runtime/src/pager.c:642-649 | the gaps between entries are the free runs of the map |
| Repaint.RepaintedPageMap | runtime/src/pager.c:423-479 | repainted entries stay disjoint and stand for the map with new rights on exactly the region |
| Pager.Vmmap.constructor | runtime/src/pager.c:97-110 | a new map is valid and maps nothing |
| Pager.Vmmap.RemoveMarked | runtime/src/pager.c:147-238 | marked entries go, the map stays; it ends the process exactly when every entry is marked |
| Pager.Vmmap.MakeSorted | runtime/src/pager.c:241-255 | the entries are compacted and sorted, the map stays |
| Pager.Vmmap.Add | runtime/src/pager.c:257-291 | one entry is appended, the array doubling when it is full |
| Pager.Vmmap.Update | runtime/src/pager.c:298-362 | the region is overwritten or removed, no other page changes, the result is valid |
| Pager.Vmmap.AddWithOverwrite | runtime/src/pager.c:364-377 | refines map overwrite on exactly the region |
| Pager.Vmmap.Remove | runtime/src/pager.c:379-390 | refines map removal on exactly the region; ends the process exactly when nothing is left of a non-empty map |
| Pager.Vmmap.ChangeProt | runtime/src/pager.c:392-481 | succeeds exactly when every page of a non-empty region is mapped and may have the rights; then prot changes on exactly those pages, else the map stays |
| Pager.Vmmap.CheckExistingMapping | runtime/src/pager.c:483-519 | true if and only if every page of a non-empty region is mapped with prot within maxProt |
| Pager.Vmmap.FindPage | runtime/src/pager.c:538-554 | finds the entry that covers a page if and only if the page is mapped |
| Pager.Vmmap.FindSpace | runtime/src/pager.c:632-657 | the highest free run of n pages between mapped ones, and 0 if and only if there is none |
| Pager.Vmmap.FindMapSpaceAboveHint | runtime/src/pager.c:702-733 | the lowest such run at or above the hint, and 0 if and only if there is none |
| RockMmap.Mmap | runtime/src/runtime.c:474-550 | a successful call without MAP_FIXED adds the chosen free pages and changes none already present |
| Versions.Convert | runtime/include/cfggen/cfggen.h:1148-1171 | the next number without a reserved digit becomes a half-id and is stepped over |
| Versions.NextGoodRank | runtime/include/cfggen/cfggen.h:1148-1171 | the numbers it stops at are all numbers without reserved digits, in order and without gaps |
| Versions.UsedRepeats | runtime/include/cfggen/cfggen.h:1148-1171 | two calls give one half-id if and only if a multiple of 125^4 calls lies between them |
| Versions.SameVersion | runtime/include/cfggen/cfggen.h:1230-1258 | versions repeat exactly every 125^4 generations |
| Versions.ZeroVersion | runtime/include/cfggen/cfggen.h:1230-1258 | which generations have version 0 |
| Protocol.InvKept | runtime/src/runtime.c:861-936 | every step of every thread and of the runtime keeps the invariant |
| Protocol.ReachableInv | runtime/src/runtime.c:861-936 | the invariant holds after every run |
| Checks.HeldBidAge | runtime/src/runtime.c:653-682 | a BID in mid-check is at most version_space + 1 generations old, hence at most VERSION_SPACE_MAX |
| Checks.ResetMeansFresh | runtime/src/runtime.c:861-873 | version_space is reset only when every BID held is of the latest generation, though safe() looks at one thread at a time |
| Checks.TaryNotBehind | runtime/src/runtime.c:875-917 | once a branch slot of an already generated module is new, every target entry is |
| Checks.PassingCheckAllowed | runtime/src/main.c:725-742 | while version_space + 1 is below 125^4, a check that passes against an entry with an ID is allowed by the CFG of one single generation, and one that passes against an entry without one is made 125^4 generations in or later |
| Checks.PassingBlank | runtime/src/runtime.c:290-320 | exactly when a check passes against an entry that was activated before it has an ID |
| Checks.ActivationGrows | runtime/src/runtime.c:300-320 | over any run activation only grows and restored call sites stay restored |
| Checks.RestoredActive | runtime/src/runtime.c:922-931 | a restored call site's return address is active once the CFG exists, and recorded in patch_compensate before |
| Checks.PatchOnce | runtime/src/runtime.c:290-300 | patching a call site again changes nothing at any later point |
| StaleIds.StalePasses | runtime/src/runtime.c:750-759 | a run in which a BID that is 125^4 generations old passes a check that no generation allows |
| StaleIds.IdsSoundExactly | runtime/src/runtime.c:750-759 | against entries that hold an ID the guarantee holds if and only if version_space + 1 is below 125^4 |
| Guarantee.PassesExactly | runtime/src/main.c:725-742 | exactly when a check passes, for every entry: active, and a whole number of rounds of versions apart with one class, or without an ID and for the first class of a generation with version 0 |
| Guarantee.PassingAllowed | runtime/src/main.c:725-742 | with fewer than 125^4 generations whatever passes is allowed by one single generation |
| Guarantee.BlankPasses | runtime/src/runtime.c:290-320 | a run in which a check passes against an entry without an ID that no generation allows, while version_space is 0 |
| Guarantee.SoundExactlyWithin | runtime/src/runtime.c:750-759 | over all entries the guarantee holds within n generations if and only if n is below 125^4 |
| CodeWords.CallDecodes | runtime/src/main.c:851-873 | each patched call decodes to the stub, exactly on target when the two are less than 2^31 apart, and its return address rounds up to the saved key |
| CodeWords.EntryDecodes | runtime/src/main.c:884-894 | so does each patched entry |
| LoadPatch.PatchSite | runtime/src/main.c:851-873 | a call site's patch changes its word to the patched form, for direct calls and both indirect encodings |
| LoadPatch.Load | runtime/src/main.c:844-895 | every word is patched at most once for a call and then once for an entry, and what is saved is the original of the first and the word before the second |
| OnlinePatch.Module.PatchCall | runtime/src/runtime.c:272-330 | restores the word in front of the rounded address, once per address; accepted exactly when the assertions hold |
| OnlinePatch.Module.PatchEntry | runtime/src/runtime.c:190-270 | restores the word at the entry; accepted exactly when the assertions hold |
| OnlinePatch.WordsAre | runtime/src/runtime.c:265-320 | after any run every word is as it was last restored |
| OnlinePatch.RestoredExactly | runtime/src/runtime.c:265-320 | when a word equals the original again |
| OnlinePatch.RunRestores | runtime/src/main.c:875-883 | when each patched word is restored, its entry before its call, all code bytes equal the original |
| OnlinePatch.EntryAfterCall | runtime/src/runtime.c:289-293 | restoring an entry after its call leaves the patched call, and calling it again changes nothing |
| OnlinePatch.StaysPatched | runtime/src/runtime.c:265-320 | entry, call and entry again is an accepted run after which the call is patched, and calling it again changes nothing |
| OnlinePatch.TwoLoad | runtime/src/main.c:844-895 | a concrete loaded image meets the conditions of that run, with a patched call that differs from the original |
| OnlinePatch.CallLeadsBack | runtime/src/runtime.c:283-320 | the address that a patched call pushes is accepted and restores that very word |
| TcbList.UnmarkedOrder | runtime/src/runtime.c:75-92 | removal keeps the order of the blocks that stay |
| TcbList.UnmarkedHas | runtime/src/runtime.c:75-92 | exactly the unmarked blocks stay |
| TcbList.Registry.SetTcb | runtime/src/runtime.c:44-53 | the main thread's block alone is in the list, its counter 0 |
| TcbList.Registry.AllocsetTcb | runtime/src/runtime.c:55-70 | a new block in front with counter 0; keys stay exactly the unmarked blocks |
| TcbList.Registry.RemoveTcbMarked | runtime/src/runtime.c:75-92 | the linked list becomes its unmarked part, in order; no other field changes |
| TcbList.Registry.FreeTcb | runtime/src/runtime.c:94-124 | what was marked goes, the first matching block is marked and loses its counter, at most one is marked; ends the process exactly when nothing is left or the address is outside the sandbox |
| TcbList.Registry.UpdateThesc | runtime/src/runtime.c:653-663 | every unmarked block's counter is saved; the asserted lookups succeed |
| TcbList.Registry.Safe | runtime/src/runtime.c:665-682 | true if and only if each unmarked thread is in a system call or has escaped since; the asserted lookups succeed |
| Verifier.VerifySound | runtime/src/runtime.c:1944-1972 | the chunk found takes the DFA from its start to the accepting state reported |
| Verifier.VerifyAccepts | runtime/src/runtime.c:1944-1972 | something is accepted only if some word on the way is |
| Verifier.AcceptedVerifies | runtime/src/runtime.c:1944-1972 | and whenever one is; looking further only prolongs it |
| Verifier.VerifyChunk | runtime/src/runtime.c:1944-1972 | the recursive look-ahead loop computes this, its ignored result included |
| Verifier.ChunksTile | runtime/src/runtime.c:2000-2050 | the chunks are accepted words that tile the buffer; each round advances |
| JitCode.ScanCode | runtime/src/runtime.c:2000-2050 | the main loop splits the code, marks tary and records the targets, never beyond (size + 1) / 2 slots |
| JitCode.CheckTargets | runtime/src/runtime.c:2057-2074 | the last loop succeeds if and only if every recorded target is marked in the table or in tary |
| JitCode.VerifyJittedCode | runtime/src/runtime.c:1974-2079 | accepted if and only if the code splits into instructions that are good together; tary then marks their starts |
| JitCode.AcceptedCode | runtime/src/runtime.c:1974-2079 | in accepted code tary marks exactly the chunk starts and every direct branch lands on one of them or on a marked address outside |
| Decimal.Columns | runtime/src/vsprintf.c:175-253 | the columns computed from hexadecimal digits, with their carries, are the decimal digits, and stay in that range |
| Decimal.PutDecTrunc | runtime/src/vsprintf.c:175-210 | exactly the decimal digits, least significant first, without leading zeros |
| Decimal.PutDecFull | runtime/src/vsprintf.c:213-253 | exactly five digits |
| Decimal.PutDec | runtime/src/vsprintf.c:255-264 | exactly the decimal digits of a number of any size |
| Decimal.DigitsValue | runtime/src/vsprintf.c:255-264 | the digits evaluate to the number and do not end in a zero |
| Formats.Decode | runtime/src/vsprintf.c:510-686 | consumes something unless it follows a star and finds an invalid conversion or a pointer; fields stay within 16 bits |
| Formats.FormatDecode | runtime/src/vsprintf.c:510-686 | the decoder computes this token |
| Directives.DirectiveDecodes | runtime/src/vsprintf.c:541-686 | decoding a written directive without stars gives back its flags, width, precision, length modifier and conversion, wherever it stands and whatever follows |
| Composition.FromSuffix | runtime/src/vsprintf.c:726-852 | what is rendered from a position on is what the rest of the format renders |
| Composition.RenderedDirective | runtime/src/vsprintf.c:726-852 | text without a percent sign, a directive and a rest render as the text, what the directive means for its arguments, stars included, and the rest with the arguments that follow |
| Rendering.NumberLength | runtime/src/vsprintf.c:306-430 | a number takes max(needed, width) characters if and only if no 16-bit counter wraps |
| Rendering.NumberLayout | runtime/src/vsprintf.c:306-430 | blanks, sign, prefix, zeros, digits and blanks, on the side that the flags ask for |
| Rendering.NumberValue | runtime/src/vsprintf.c:343-368 | the digits printed evaluate to the magnitude in their base, without leading zeros |
| Rendering.StringLength | runtime/src/vsprintf.c:432-460 | exactly when a string takes max(length, width) characters |
| Rendering.StringLayout | runtime/src/vsprintf.c:439-457 | then blanks fill the field on the side that the flags ask for |
| Rendering.CharLayout | runtime/src/vsprintf.c:752-773 | a character fills its field likewise, if and only if the width is not one of the lowest, which wrap |
| Rendering.DecodeProgress | runtime/src/vsprintf.c:726-852 | each round of the main loop advances in the format or consumes a pending star |
| Vsnprintf.Number | runtime/src/vsprintf.c:306-430 | writes the number's text as far as it fits, and counts all of it |
| Vsnprintf.String | runtime/src/vsprintf.c:432-460 | the same for strings, cut at the precision |
| Vsnprintf.Pointer | runtime/src/vsprintf.c:467-488 | the same for pointers |
| Vsnprintf.Render | runtime/src/vsprintf.c:726-852 | the main loop writes the rendering of the whole format as far as it fits, and counts all of it |
| Vsnprintf.Vsnprintf | runtime/src/vsprintf.c:706-864 | returns the length of the rendering; nothing is written for sizes whose low 32 bits are negative as an int |
| Vsnprintf.TerminatedHolds | runtime/src/vsprintf.c:854-862 | the buffer holds the first min(n, size - 1) characters and a NUL, and nothing from size on is touched |
| Archive.MapOfGood | compiler/binutils-2.24/bfd/archive.c:2299-2383 | the map lists symbols in the order of their members, with the names packed |
| Archive.CoffPositionIs | compiler/binutils-2.24/bfd/archive.c:2596-2680 | the offsets that coff_write_armap predicts are where the members will be, thin archives included |
| Archive.BsdPositionIs | compiler/binutils-2.24/bfd/archive.c:2409-2503 | so are those of bsd_write_armap for archives that are not thin |
| Archive.BsdThin | compiler/binutils-2.24/bfd/archive.c:2409-2503 | in a thin archive a BSD offset is right if and only if every member before it is empty |
| Archive.HeaderAt | compiler/binutils-2.24/bfd/archive.c:2195-2233 | each member's header stands at its position |
| Archive.StringsAt | compiler/binutils-2.24/bfd/archive.c:2359-2372 | each name starts at its index and is followed by a NUL |
| ArchiveWriter.CollectMap | compiler/binutils-2.24/bfd/archive.c:2299-2383 | the nested loops collect the map |
| ArchiveWriter.CoffWriteArmap | compiler/binutils-2.24/bfd/archive.c:2596-2700 | succeeds if and only if every offset fits 32 bits, and writes header, count, offsets, names and padding |
| ArchiveWriter.BsdWriteArmap | compiler/binutils-2.24/bfd/archive.c:2409-2526 | the same for the BSD layout in either byte order |
| ArchiveWriter.WriteArchiveContents | compiler/binutils-2.24/bfd/archive.c:2104-2259 | the file is magic, map, extended names and members, old maps dropped |
| ArchiveReader.DoSlurpCoffArmap | compiler/binutils-2.24/bfd/archive.c:959-1056 | the reader's loops compute the symbols of a COFF map, malformed sizes refused |
| ArchiveReader.DoSlurpBsdArmap | compiler/binutils-2.24/bfd/archive.c:888-954 | the same for a BSD map, and a map of fewer than four bytes is refused |
| ArchiveReader.CoffRoundTrip | compiler/binutils-2.24/bfd/archive.c:959-1056 | reading a written COFF map gives back all names and offsets in order, padding included |
| ArchiveReader.BsdRoundTrip | compiler/binutils-2.24/bfd/archive.c:888-954 | the same for BSD maps in either byte order |
| ArchiveReader.CoffArchivePoints | compiler/binutils-2.24/bfd/archive.c:2104-2233 | in a whole archive with a COFF map each symbol read back points at the header of its member |
| ArchiveReader.BsdArchivePoints | compiler/binutils-2.24/bfd/archive.c:2104-2233 | the same for BSD maps, long names after headers included |
| InitialStack.SizesFit | runtime/src/main.c:431-489 | the sizes summed are exactly those of what is written, with room for a final zero entry |
| BuildStack.ExtractElfLoadData | runtime/src/main.c:431-489 | the loops sum these sizes |
| BuildStack.WriteAux | runtime/src/main.c:386-413 | an entry of the auxiliary vector is dropped, replaced, or written with its data in the pool |
| BuildStack.Build | runtime/src/main.c:342-418 | the block is aligned and below the old top, holds exactly the items in a pointer area and a string pool that are disjoint, and memory outside is untouched |
| ReadStack.StackFrame | runtime/src/main.c:342-357 | memory outside the block is as before |
| ReadStack.StackRead | runtime/src/main.c:342-418 | reading the stack recovers argc, argv, envp and the auxiliary vector without AT_SYSINFO_EHDR and AT_HWCAP, with AT_BASE replaced and ended by AT_NULL |

## Left out

- System calls, parallel mappings, fork save and restore, inline assembly, statistics, printing: no state that the proofs are about.
- CFG construction and the grouping into classes: each generation's CFG is a parameter of the protocol.
- `patch_at`, and the activation of virtual methods and landing pads in `patch_entry`: single table writes; the protocol covers their effect as activations.
- `code_heap_fill`, `rock_mprotect`, `rock_mremap`, `rock_brk`: they depend on the kernel or on instruction caches.
- The bitmaps of code and data (`which_area`, `set_code`, `set_data`): not needed by the properties above.
- QSort.QSort: elements are moved as units and positions are element indices; ElementBytes.Cycle proves that the byte moves rotate the elements as Heaps.Rotated does; the sort itself is not restated on bytes. The comparator is a pure function.
- Pager.Vmmap.Update: page sums stay below 2^64, and each entry is a value in its slot instead of an allocated object.
- Pager.Vmmap.CheckExistingMapping: says nothing about the answer for an empty region, nor does ChangeProt.
- Pager.Vmmap.FindSpace: says nothing about runs of no pages, nor does the search above a hint; `VmmapFindMapSpace` is the same search with another rounding and is not modelled.
- RockMmap.Mmap: the MAP_FIXED path, and the question whether the kernel maps what the page map says.
- Protocol.ReachableInv: memory orders weaker than sequential consistency; threads whose control block is marked for removal.
- TcbList.Registry.SetTcb: a second call, which would drop the list; alloc_tcb running out of memory.
- CodeWords.CallDecodes: a direct call site is assumed to hold a 5-byte call in front of its return address, as its symbol says.
- LoadPatch.Load: how symbols are found in the ELF file; the offsets of call sites and entries are given, distinct and multiples of 8.
- OnlinePatch.Module.PatchEntry: the activations of virtual methods and landing pads made there.
- OnlinePatch.Module.PatchCall: one module, with addresses relative to its base; the order of its writes as other cores see them.
- JitCode.VerifyJittedCode: the DFA's tables are a parameter.
- Directives.DirectiveDecodes: directives with `*`, which take several tokens; Composition.RenderedDirective covers them.
- Composition.RenderedDirective: directives with `%p` in front of a letter or digit, which is swallowed, and fields beyond 16 bits.
- Vsnprintf.Vsnprintf: `%n` stores, the raw `do_div` assembly, buffers that wrap around the end of memory, strings of INT_MAX characters and more.
- ArchiveWriter.WriteArchiveContents: text fields of the headers, timestamps, I/O errors; headers are given as 60 bytes.
- ArchiveReader.DoSlurpCoffArmap: the i960 byte-order hack; names beyond the string area read as empty.
- ArchiveReader.DoSlurpBsdArmap: a map of fewer than four bytes is refused, whereas the original does not check for it: its unsigned subtraction wraps and it reads beyond the buffer.
- BuildStack.Build: the search for MCFI_SDK and HOME in the environment, and the cache `aux[]`.
- Traditional-format name tables, nested archives and element caches of archive.c.
