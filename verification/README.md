# A model of a small C library in Dafny

Five parts of the library are modelled here and proved correct, each in the form the C code has: classes
with fields that methods update, loops over arrays with invariants, and lemmas about the functions that
specify them.

* **Regular expressions** (`Regex*.dfy`): the syntax trees of `regcomp.c` and the language each denotes; the
  expansion of bounded repetitions; nullable, firstpos and lastpos; the transition table; `regexec.c`'s
  parallel matcher; bracket expressions; submatch reporting. Nodes live in a growing arena and are rewritten
  in place through explicit stacks, as in the source.
* **The pool allocator** (`Malloc*.dfy`): `malloc.c`. `Memory` is what the allocator reads and writes at
  addresses (list nodes, pool records, block headers), `Kernel` is the system's mappings, `Cache` the parked
  ones and `Allocator` the globals. `Allocator.Valid()` is the invariant that every call keeps; the users'
  view of it is `Has(S(), v, n)`: pointer v is held for n bytes. `Memory` holds what was last written at an
  address, a user's byte or a record of the allocator's. A record is kept under its first address alone: how
  far it extends is not part of that map. Where everything lies is a matter of the invariant instead, whose
  `MallocState.Layout` keeps blocks with their headers, free blocks and the pool's record apart, and of the
  theorems drawn from it. That users' bytes survive the calls is shown by putting them under watch during a
  call (`MallocBytes.Watch`). Numbers are those of the 32-bit target.
* **The break-based allocator** (`Noos*.dfy`): `noos/malloc.c`, over memory as single bytes, for 4- and
  8-byte words.
* **Glob matching** (`Fnmatch*.dfy`): `fnmatch.c` against the declarative meaning of a pattern, for all flags,
  and that meaning against patterns as they are written.
* **Algorithms**: heapsort and binary search (`Sorting.dfy`), word-wise copying and searching
  (`StringWords.dfy`, `StringCopy.dfy`), the calendar (`Calendar*.dfy`, `Localtime.dfy`), printing and
  parsing of integers (`Number*.dfy`).

`dafny verify dfyconfig.toml` checks all of it.

## What the proofs found

* The position offsets that expansion keeps for nested repetitions can give two different leaves the same
  position, and then the compiled automaton matches too much: compiled, `x((a{2})*b)*y` is found in `xaby`
  (`RegexClash.AnswersTooMuch`). `RegexPlaces.DistinctExactlyWhenClashFree` says exactly for which parsed
  trees the numbers stay distinct, and for those the matcher is right (`RegexMatch.CompileAndMatch`). For
  trees without brackets of several ranges (`Tight`) the condition is simply `Safe`
  (`RegexNumbering.DistinctExactlyWhenSafe`); a bracket can save an unsafe tree (`RegexPlaces.BracketFits`).
  An error is always in one direction: whatever the numbers, no match is missed
  (`RegexMatch.NothingIsMissed`). The condition is exact for the numbers and only sufficient for the answer,
  since two leaves that share a position may happen to go on alike
  (`RegexClash.ClashWithoutHarm`). The model follows the code.
* `localtime` and `mktime` undo each other for every time whose local seconds fit an `int`, which on the
  32-bit target is every time there is, and for no other (`Localtime.MktimeUndoesLocaltime`); `mktime` undoes
  `localtime` before 1970 too, although the fields are then not normalised (`Localtime.NormalFromEpoch`). "For
  no other" takes it that `int` arithmetic wraps around where C leaves an overflow undefined.
* Under FNM_PERIOD `fnmatch` compares a hidden dot with the raw byte of the pattern, so that `\.` refuses the dot
  that it matches otherwise (`FnmatchFlags.EscapedDot`). Under FNM_CASEFOLD ranges are not blind to case:
  `[Z-a]` and `[z-a]` differ (`FnmatchCase.CaseMatters`), and `FnmatchCase.RangeCase` says exactly when a range
  and its other case do; without ranges they never do (`FnmatchCase.CaseBlind`).
* The break-based heap notices a second `free` as long as the chunk still stands on the free list by itself
  (`NoosHeap.Heap.Free`); once it has merged into a neighbour the search does not meet its address.

## Model

| member | source | states |
|---|---|---|
| `RegexExpand.RepeatKeepsLanguage` | regcomp.c:1913-1993 | The copies and nested optional copies that replace a bounded repetition have the language of the repetition, for all counts and whatever position offset they are shifted by. |
| `RegexExpand.ExpandKeepsLanguage` | regcomp.c:1835-2018 | Expanding the repetitions of any tree, nested to any depth, keeps its language. |
| `RegexExpand.ExpandIsSimple` | regcomp.c:1892-1993 | After expansion only iterations with minimum 0 or 1 and maximum 1 or unbounded are left. |
| `RegexCopy.CopyAst` | regcomp.c:1687-1826 | The explicit-stack copier lays out a fresh, shifted copy of the tree, touches no old node, counts its positions and reports the highest one. |
| `RegexExpandAst.ExpandIteration` | regcomp.c:1913-1998 | One bounded iteration node is rewritten in place to the expanded tree, the other nodes stay, and the position counters advance by exactly the copies made. |
| `RegexExpandAst.ExpandAst` | regcomp.c:1835-2018 | The in-place stack walk leaves, at the same root, the tree that the recursive definition of expansion gives, with the position count regcomp goes on with; unrelated nodes are untouched. |
| `RegexNfl.SetUnion` | regcomp.c:2059-2128 | The union keeps every entry of both sets, in order, for sets without tags and assertions. |
| `RegexNfl.ComputeNfl` | regcomp.c:2244-2465 | The stack walk labels every node of the tree with its nullable, firstpos and lastpos and changes nothing else. |
| `RegexPositions.AutomatonIsCorrect` | regcomp.c:2244-2678 | The automaton drawn from nullable, firstpos and lastpos accepts exactly the language of the tree, for every tree left by expansion whose leaves have distinct positions, one bracket's leaves sharing theirs. |
| `RegexPositions.AcceptsIsMatches` | regcomp.c:2798-2878 | With the dummy final leaf appended, reaching its position is the same as matching the tree. |
| `RegexTnfa.MakeTrans` | regcomp.c:2470-2603 | Adds exactly the transitions from every last position to every first position to the table, each row ended by its sentinel, and none to other rows. |
| `RegexTnfa.CountTrans` | regcomp.c:2604-2617 | The counting pass charges each position with the transitions the table pass may write for it. |
| `RegexTnfa.CountAst` | regcomp.c:2624-2678 | The counting pass over the tree adds up the demand of every catenation and loop below the node. |
| `RegexTnfa.AstToTnfa` | regcomp.c:2624-2678 | The table pass fills the rows with exactly the follow transitions of the tree and never overruns the room that was counted for it. |
| `RegexCompile.LayOutStates` | regcomp.c:2823-2834 | The rows get disjoint stretches of the transition array, each with room for its count and a sentinel. |
| `RegexCompile.BuildInitial` | regcomp.c:2842-2875 | The initial transitions are those to the first positions, in order, ended by a sentinel. |
| `RegexCompile.Tnfa.constructor` | regcomp.c:2830-2880 | The assembled automaton's table holds exactly the follow relation of the tree and its final state is the dummy leaf's. |
| `RegexCompile.BuildTnfa` | regcomp.c:2807-2880 | From a labelled tree to a valid automaton with one state for each position. |
| `RegexCompile.Regcomp` | regcomp.c:2753-2880 | From the parsed tree to the automaton of the expanded tree with its final leaf. |
| `RegexTags.TagOrder` | regexec.c:98-122 | One tag vector wins over another exactly if, at the first tag where they differ, its value is the better one in that tag's direction. |
| `RegexTags.WinnersSurvive` | regexec.c:404-449 | Replacing an entry whenever a newcomer wins leaves, for each state, exactly the arrival that no other one beats, in whatever order they come. |
| `RegexRun.LaterStarts` | regexec.c:271-312 | What is kept up to an offset does not depend on paths that start later. |
| `RegexRun.ListedIsCarried` | regexec.c:373-449 | The tags that are kept are never mixed: they are those of one path through the automaton. |
| `RegexExec.VisitNew` | regexec.c:404-426 | A state reached for the first time at a position is appended to the reach list once with its tags, and the best match is replaced exactly if there is none or its start is not passed. |
| `RegexExec.VisitAgain` | regexec.c:427-449 | A state reached again keeps its place in the list and takes the new tags exactly if these win; with the start tracked a later path only wins from the same start. |
| `RegexExec.Visit` | regexec.c:404-449 | Each state is on the reach list once, with the best tags of all that arrived, sorted by match start when tag 0 tracks it. |
| `RegexExec.AddInitial` | regexec.c:273-312 | While nothing has matched, the paths that start at this position join the list behind the older ones, one for each state that is not on it, with the tags of the first transition to it. |
| `RegexExec.FollowAll` | regexec.c:373-453 | After a character the list holds exactly the states that a path over one more character reaches, in order of their starts, each with the best tags of all arrivals. |
| `RegexExec.StepText` | regexec.c:321-453 | One round of the character loop keeps everything known of the list, the marks and the best match so far. |
| `RegexExec.RunParallel` | regexec.c:264-457 | A match is reported exactly if some substring is accepted, in whatever order states are reached. Its tags are those of one path, the one kept for the final state where the match ends. Without tags it is the first match to end. When tag 0 is minimised and set by the initial transitions alone, the match starts where tag 0 says, and no match that starts there or earlier ends later; nor does any start earlier, if tag 0 is the only tag or no two kept paths with the same start and different tags have come to the final state at once. The state arrays never overflow. |
| `RegexMatch.Regexec` | regexec.c:995-1028 | On a compiled automaton without back references regexec succeeds exactly if the automaton accepts some substring of the subject. |
| `RegexMatch.AcceptsIsOriginal` | regcomp.c:1833-2678 | Through expansion, labelling and table the compiled automaton still accepts exactly the language of the parsed tree, if the expanded leaves have distinct positions. |
| `RegexPositions.WordsAreAccepted` | regcomp.c:2244-2678 | However the leaves are numbered, every word of an expanded tree leads the automaton to its final state. |
| `RegexMatch.NothingIsMissed` | regcomp.c:2798-2878 | Whatever expression is compiled and however it is numbered, every word of it is accepted. |
| `RegexMatch.CompileAndMatch` | regexec.c:995-1028 | regcomp then regexec answers true if and only if the compiled automaton accepts a stretch of the text. If the parsed expression occurs in the text that is always so; the answer is exactly whether it occurs when the expanded positions are distinct, which for numbered trees is when no numbers clash. |
| `RegexNumbering.SafeIsDistinct` | regcomp.c:1839-2015 | The position offsets of expansion give distinct positions to every safe tree. |
| `RegexPlaces.DistinctExactlyWhenClashFree` | regcomp.c:1892-2015 | For every consecutively numbered tree, brackets of several ranges included: the positions after expansion are distinct if and only if, inside iterations, no leaf takes up a number of a part in front of it whose growth the saved counter forgets. |
| `RegexNumbering.DistinctExactlyWhenSafe` | regcomp.c:1892-2015 | For trees without brackets of several ranges the condition is simpler: positions are distinct if and only if inside an iteration no leaf follows a part that contains a copied repetition. |
| `RegexPlaces.SafeIsClashFree` | regcomp.c:1892-2015 | The simpler condition is enough for every numbered tree, and the same as the exact one where every leaf has its own number. |
| `RegexPlaces.BracketFits` | regcomp.c:1892-2015 | In (([ab]{2})*c)* the simpler condition fails and the numbers are still distinct: the copies of the bracket leave a gap that c fits into. |
| `RegexClash.UnsafeNumbering` | regcomp.c:1892-1998 | x((a{2})*b)*y, for any four characters, is not safe. |
| `RegexClash.MatchesTooMuch` | regcomp.c:1892-1998 | The code's own counterexample: compiled, x((a{2})*b)*y accepts "xaby", in which the expression does not occur, for any four different characters. |
| `RegexClash.AnswersTooMuch` | regexec.c:995-1028 | regcomp followed by regexec therefore answers that it occurs. |
| `RegexClash.ClashWithoutHarm` | regcomp.c:1892-2015 | In ((a{2})*a)* two leaves get one position and the compiled automaton still accepts exactly the words of the expression. |
| `RegexSubmatch.CheckParents` | regexec.c:970-977 | A submatch is erased if it lies outside one of its parents as reported. |
| `RegexSubmatch.FillPmatch` | regexec.c:930-988 | The reported submatches are those of the tags, with every one erased that is not inside all its parents; without a match, or with REG_NOSUB, all are -1. |
| `RegexSubmatch.ReportedIsNested` | regexec.c:961-979 | A group that is reported lies in every group around it, parents of parents included, and all of these are reported too. |
| `RegexSubmatch.ReportedExactly` | regexec.c:961-979 | A group is reported if and only if the tags have it and all the groups around it and each of these lies in its parents. |
| `RegexBracket.ParseTerms` | regcomp.c:532-612 | Reads the terms of a list up to its ']' with ranges, end and error codes, up to a "[:" if it meets one where a term begins. |
| `RegexBracket.TermsAreGrammar` | regcomp.c:532-612 | What is read is exactly what can be cut into terms up to a ']' (']' only first, '-' only first, last or at the lower end of a range, the longest term each time); each error code comes exactly if the terms lead up to what it stands for. |
| `RegexBracket.TermsAreRanges` | regcomp.c:573-598 | Every term is a range of byte codes from low to high. |
| `RegexBracket.SortForNegation` | regcomp.c:654-664 | Sorting by lower end and adding the sentinel keeps exactly the listed ranges. |
| `RegexBracket.GapOverlap` | regcomp.c:683-688 | A range that starts in what is already covered only extends it. |
| `RegexBracket.GapBefore` | regcomp.c:689-693 | Any other range leaves exactly the uncovered stretch in front of it as a gap, apart from the earlier ones. |
| `RegexBracket.BuildUnion` | regcomp.c:677-702 | The union holds the listed ranges or, negated, the disjoint gaps between them, all leaves with one position. |
| `RegexBracket.GapsAreComplement` | regcomp.c:639-702 | However the listed ranges overlap, the gaps are exactly their complement in 0..TRE_CHAR_MAX. |
| `RegexBracket.ParseBracket` | regcomp.c:614-709 | The tree built matches exactly the one-character strings the bracket stands for: the listed characters, or all others up to TRE_CHAR_MAX without newline under REG_NEWLINE. |
| `RegexBracketLaws.ListStandsFor` | regcomp.c:519-709 | [abc] is read to its ']' and stands for the characters typed. |
| `RegexBracketLaws.CaretStandsForOthers` | regcomp.c:633-702 | [^abc] stands for every other character up to 0x10FFFF, without newline under REG_NEWLINE. |
| `RegexBracketLaws.RangeStandsFor` | regcomp.c:573-598 | [a-z] stands for the characters from a to z. |
| `MallocCache.TotalUpdate` | malloc.c:240-301 | Replacing one slot changes the sum of the parked lengths by exactly the difference. |
| `MallocCache.Kernel.Mmap` | malloc.c:281-286 | The system hands out a mapping that overlaps none it has handed out before, or refuses, which is counted. |
| `MallocCache.Kernel.Munmap` | malloc.c:300 | Unmapping is only called with a mapping's base and exact current length. |
| `MallocCache.Kernel.Mremap` | malloc.c:368 | Resizing happens in place with the exact current length, or is refused. |
| `MallocCache.Cache.ReleaseParked` | malloc.c:240-249 | Every parked mapping is unmapped with its own length and the cached byte count returns to zero. |
| `MallocCache.Cache.FindParked` | malloc.c:262-267 | The smallest parked mapping of at least the length and at most twice it, the first on ties, or none if none serves. |
| `MallocCache.Cache.Map` | malloc.c:260-287 | A parked mapping is reused if one serves; otherwise all parked ones are given back first and a new one is mapped; every other mapping keeps its length and owner. |
| `MallocCache.Cache.Unmap` | malloc.c:289-301 | The mapping is parked or returned with its exact length; the cached bytes stay the sum of the parked lengths and within LARGE_CACHE_MAX_BYTES. |
| `MallocBlocks.InsertKeepsOrder` | malloc.c:378-460 | Inserting a block that overlaps none keeps the list in address order with no two blocks touching. |
| `MallocBlocks.InsertAddsBytes` | malloc.c:378-460 | The list covers exactly the bytes it covered before and those of the block put in. |
| `MallocBlocks.OrderedIsCanonical` | malloc.c:378-460 | Two lists in that form that cover the same bytes are the same list: coalescing is maximal. |
| `MallocFree.Memory.FindSpot` | malloc.c:390-407 | The walk ends between the last block below the address and the first above it, with the big block to relink from. |
| `MallocFree.Memory.JoinAfter` | malloc.c:413-424 | The freed block swallows the one right behind it and the list stays linked. |
| `MallocFree.Memory.JoinBefore` | malloc.c:426-435 | The block right in front swallows the freed one and the list stays linked. |
| `MallocFree.Memory.LinkIn` | malloc.c:409-435 | The block, merged with both neighbours it touches, takes its place in the list. |
| `MallocFree.Memory.PoolTrimEnd` | malloc.c:364-374 | A pool's tail is returned with its exact lengths, or nothing changes; the bump offset never passes the new end. |
| `MallocFree.Memory.ChainIn` | malloc.c:444-457 | The chain of big blocks is again exactly the list's big blocks in the same order. |
| `MallocFree.Memory.TrimBlock` | malloc.c:436-443 | A retired pool's last block gives its whole pages back and shrinks by what was given. |
| `MallocFree.Memory.LinkFreed` | malloc.c:378-435 | List and chain around the merged block after linking. |
| `MallocFree.Memory.FreelistInsert` | malloc.c:378-460 | After freeing, list and chain hold the old blocks and the merged one; nothing outside the pool's list nodes is written. |
| `MallocTake.TakeBlock` | malloc.c:472-493 | A block is unlinked; what is left of it, if it can be a block of its own, takes its place in the list. |
| `MallocTake.FreelistTake` | malloc.c:499-529 | The first block in the list that fits, and only if one fits. |
| `MallocTake.TakenIsOrdered` | malloc.c:472-493 | Taking keeps the list in order with no two blocks touching. |
| `MallocTake.TakenBytes` | malloc.c:472-493 | The list covers exactly the bytes it covered before without those handed out; a remainder below 16 bytes goes with the block. |
| `MallocBest.BuildChain` | malloc.c:548-553 | At retirement the chain is built as exactly the list's big blocks in list order. |
| `MallocSearch.ScanPool` | malloc.c:642-656 | Walking only the big chain of a pool finds what a walk of its whole list would: the smallest block that fits and beats the one in hand; the bound it computes is met by every block of the pool. |
| `MallocSearch.SearchPool` | malloc.c:641-657 | Skipping a pool by its bound loses nothing. |
| `MallocSearch.FindBest` | malloc.c:635-660 | Over all retired pools: the smallest block that fits, the first on ties, none only if none fits; an exact fit ends the search early without changing the answer. |
| `MallocServe.FindPrev` | malloc.c:663-669 | The list link to the chosen block, found from the big block before it. |
| `MallocServe.TakeBest` | malloc.c:660-682 | Taking the chosen block leaves list, chain and bound of its pool in agreement. |
| `MallocTheorems.BestFitIsFullWalk` | malloc.c:635-682 | The search over the chains picks the very block that a full walk of every free block of every retired pool keeps. |
| `MallocTheorems.NothingToWalk` | malloc.c:635-682 | When the search finds nothing, neither does the full walk. |
| `MallocAllocator.Allocator.constructor` | malloc.c:120-128 | The empty allocator meets the invariant. |
| `MallocAllocator.Allocator.PutFree` | malloc.c:916-930 | Afterwards the pool's free list covers exactly what it covered before and the freed block, as far as the mapping still reaches once a retired pool has given pages back; no live block of any pool is touched. |
| `MallocAllocator.Allocator.Retire` | malloc.c:541-556 | The pool that is set aside becomes the first retired one with its chain built and its bound right; its bump room, from the next multiple of 8 on, is on its free list then, unless it is too short for a block. |
| `MallocAllocator.Allocator.OldPoolTake` | malloc.c:575-606 | The first retired pool with a block that fits gives it and becomes the current pool; if it gives none, no retired pool has one and nothing changed. |
| `MallocAllocator.Allocator.OldPoolBestFit` | malloc.c:635-682 | The block handed out is the one the search over every free block of every retired pool picks; none is handed out only if none fits. |
| `MallocAllocator.Allocator.SetAside` | malloc.c:593-601 | The current pool is retired, kept as the spare or given back, depending on its live blocks, and no live block is lost. |
| `MallocAllocator.Allocator.PoolGrow` | malloc.c:754-766 | The current pool grows in place by at least a page to at most the largest pool size, or nothing changes. |
| `MallocAllocator.Allocator.MkPool` | malloc.c:688-746 | After making room for a pool the current one is empty and long enough, or there is none; the previous pool's live blocks stay. |
| `MallocAllocator.Allocator.Grant` | malloc.c:811-833 | A free block becomes a live one: counted in refs, with its header written. |
| `MallocAllocator.Allocator.Bump` | malloc.c:856-872 | The bump pointer hands out unused room inside the mapped length and skips a header that would share a page boundary. |
| `MallocAllocator.Allocator.MakeRoom` | malloc.c:853-859 | Growth or a new pool leaves room for the block at the bump pointer, or reports failure. |
| `MallocAllocator.Allocator.MallocLarge` | malloc.c:783-803 | A large request gets a mapping of its own, or 0 exactly if the system refuses one. |
| `MallocAllocator.Allocator.Malloc` | malloc.c:779-873 | The pointer returned holds at least the bytes asked for and was not held before; every block held keeps its address, size and bytes. The answer is 0 exactly if the system refused a mapping in this call; and it is neither 0 nor is the system asked when the request is one for a pool, there is a current pool, and its free list, its bump room or a retired pool's free list has a block for it. Failure changes nothing that is held. |
| `MallocAllocator.Allocator.Free` | malloc.c:875-932 | Exactly the freed block is no longer held and every other block keeps its bytes; the freed bytes are on the free list of their pool, apart from what the pool gave back, or the whole mapping is the spare, parked or returned. So through pool release, retirement bookkeeping and the mapping cache; a null pointer changes nothing. |
| `MallocAllocator.HadSize` | malloc.c:941-944 | The size msize reads in the header in front of a held pointer, over-aligned ones included, is the size that block is held for. |
| `MallocAllocator.Allocator.Shrink` | malloc.c:954-1006 | A smaller size takes effect whenever what is cut off is a block of its own or makes a page free, unless the system refuses; otherwise the block stays longer, never below the new size. It keeps its first sz bytes, wherever it is now, and every other block all of its bytes. |
| `MallocAllocator.Allocator.ShrinkSmall` | malloc.c:986-999 | The bytes cut off a pool block go on its pool's free list, as far as the mapping still reaches. |
| `MallocAllocator.Allocator.Move` | malloc.c:1048-1057 | The new block holds the bytes copied from the old one, which is free then; every other block keeps its bytes through the malloc and the free. |
| `MallocAllocator.Allocator.ResizeLarge` | malloc.c:1027-1043 | A large block resized in place passes its mapping's exact length, or nothing changes. |
| `MallocAllocator.Allocator.Realloc` | malloc.c:1008-1057 | The block, where it stands or moved, has the new size (a shrunk one may stay longer, as Shrink says) and the first bytes of the old block up to the smaller of both sizes; a large block whose mapping has room grows in place; every other block is as before, with its bytes. Failure comes only after the system refused a mapping, and keeps the old block and its bytes. |
| `MallocAllocator.Allocator.AllocAligned` | malloc.c:1071-1094 | The pointer is a multiple of the alignment and the bytes asked for lie in the raw block behind it. |
| `MallocAllocator.Allocator.PosixMemalign` | malloc.c:1096-1113 | EINVAL exactly for a bad alignment, ENOMEM exactly if the system refused a mapping; otherwise an aligned block of its own, or nothing changed; every block keeps its bytes. |
| `MallocBytes.BlocksAreDisjoint` | malloc.c:779-932 | In every state the allocator can be in between calls no two blocks that users hold overlap. |
| `MallocTheorems.BlocksAreMapped` | malloc.c:779-932 | Every held block lies inside one mapping's current length that is not parked. |
| `MallocTheorems.FreeIsNotHeld` | malloc.c:364-460 | No free block of any pool overlaps a held block. |
| `MallocTheorems.BumpRoomIsNotHeld` | malloc.c:856-868 | The unspent bump room of the current pool holds no block. |
| `MallocTheorems.RefsCountBlocks` | malloc.c:688-932 | refs is the number of a pool's live blocks, and a retired pool has some. |
| `MallocTheorems.RetiredPoolShape` | malloc.c:378-460 | In every retired pool the list is strictly in address order with no two blocks touching, the chain is exactly its blocks of at least RETIRED_FIT_MIN in the same order, and max_free bounds every block. |
| `MallocTheorems.OneOwnerEach` | malloc.c:541-606 | Every mapping is exactly one of current pool, spare, one retired pool, one cache slot, one live large block. |
| `MallocBytes.UserWrote` | malloc.c:1071-1094 | Whatever a user writes into the bytes of any held block, over-aligned ones included, the allocator's invariant stays and every other block keeps its bytes. |
| `NoosRelease.ReleaseTiles` | noos/malloc.c:97-121 | Releasing a chunk keeps the heap tiled over the same stretch. |
| `NoosRelease.ReleaseMerges` | noos/malloc.c:97-121 | Releasing leaves no two neighbouring chunks both free. |
| `NoosRelease.ReleaseLives` | noos/malloc.c:97-121 | Exactly the released chunk stops being live. |
| `NoosRelease.ReleaseDone` | noos/malloc.c:108-121 | The header words and list links written by release describe the merged chunks, and no byte of another live chunk changes. |
| `NoosTake.TakenLinks` | noos/malloc.c:178-190 | After a chunk is handed out, split or whole, the list leads through exactly the free chunks that are left. |
| `NoosTake.TakenMerged` | noos/malloc.c:178-190 | Handing out keeps no two free neighbours. |
| `NoosTake.TakenSame` | noos/malloc.c:178-190 | Handing out writes to no live chunk. |
| `NoosTake.GrownTop` | noos/malloc.c:155-162 | A chunk on top of the heap extends the tiling to the new break. |
| `NoosTake.GrownLast` | noos/malloc.c:147-153 | The highest free chunk, grown with the break, becomes live and leaves the list. |
| `NoosHeap.Heap.constructor` | noos/malloc.c:75-76 | The empty heap, wherever the break starts, meets the invariant. |
| `NoosHeap.Heap.FindSpot` | noos/malloc.c:98-106 | The walk finds the free chunks right before and after an address. |
| `NoosHeap.Heap.Release` | noos/malloc.c:97-121 | The chunk merges with every free neighbour; one that is already on the list changes nothing. |
| `NoosHeap.Heap.FindFit` | noos/malloc.c:172-177 | First fit: the lowest free chunk that is large enough, none only if none is. |
| `NoosHeap.Heap.Take` | noos/malloc.c:178-190 | The chunk found is cut to size, or handed out whole if the rest cannot be a chunk. |
| `NoosHeap.Heap.FindTop` | noos/malloc.c:141-145 | The highest free chunk and the one before it. |
| `NoosHeap.Heap.HeapGrow` | noos/malloc.c:136-163 | The free chunk that ends at the break grows to the size, or without one a new chunk is put on top at the next multiple of 8; the break then ends the chunk. 0 exactly if the break was refused, and then nothing changes. |
| `NoosHeld.SizeFits` | noos/malloc.c:88-93 | A chunk size holds header and request, is aligned and large enough to be freed, wastes less than 8 bytes beyond that, and is 0 exactly for requests above SIZE_MAX/2. |
| `NoosHeap.Heap.Malloc` | noos/malloc.c:165-201 | First fit: the lowest free chunk that is large enough is cut to size, and only if there is none the heap grows. An 8-byte aligned payload of at least n bytes in a chunk that was not handed out and is less than a chunk too long; the bytes of every other live chunk are unchanged. 0 and ENOMEM exactly if the request is too large, or none fits and the break was refused; then nothing changes. |
| `NoosMove.ChunkOfHeld` | noos/malloc.c:82-85 | chunk_of recovers the owning chunk of every pointer malloc or memalign has returned. |
| `NoosHeap.Heap.Free` | noos/malloc.c:203-209 | Exactly that pointer is taken back; other chunks keep their bytes; a second free of a chunk that still stands alone on the list changes nothing. |
| `NoosHeap.Heap.Trim` | noos/malloc.c:124-131 | The chunk is cut down, keeps its bytes, and the rest is released if it can be a chunk. |
| `NoosHeap.Heap.Absorb` | noos/malloc.c:251-253 | The free chunk right behind is taken off the list and joined. |
| `NoosHeap.Heap.Extend` | noos/malloc.c:254-257 | The last chunk grows with the break, or nothing changes. |
| `NoosHeap.Heap.GrowInPlace` | noos/malloc.c:246-258 | The chunk becomes larger in place by its neighbour or the break and keeps its bytes, or stays as it was. |
| `NoosHeap.Heap.Realloc` | noos/malloc.c:228-274 | In place, absorbing, extending or moving: the first min(old usable size, n) bytes are kept, the block holds n bytes, no other chunk's bytes change. It stays where it is whenever its chunk, or that and the free one behind it, has room and it is not over-aligned. ENOMEM only if the request is too large or the break was refused; the old block is then untouched. |
| `NoosMove.AlignRoom` | noos/malloc.c:288-297 | For a power of two above 8 the aligned pointer is at most alignment - 8 bytes in, and at least 8 if it is in at all. |
| `NoosHeap.Heap.Memalign` | noos/malloc.c:276-298 | The pointer is aligned, n bytes lie between it and its chunk's end, and free and realloc will find the chunk; EINVAL exactly if the alignment is no power of two, ENOMEM exactly if the request is too large or the break was refused. |
| `NoosHeap.Heap.PosixMemalign` | noos/malloc.c:304-312 | EINVAL exactly for an alignment below a pointer's size or no power of two; ENOMEM exactly if the request is too large or the break was refused. |
| `NoosMove.UserWrote` | noos/malloc.c:60-64 | Whatever is written between a pointer and its chunk's end, the heap's invariant stays and other live chunks keep their bytes. |
| `NoosTheorems.NothingLost` | noos/malloc.c:97-201 | Live and free bytes add up to the whole stretch from the heap's start to the break. |
| `NoosTheorems.OneChunkEach` | noos/malloc.c:97-201 | Every address below the break is in exactly one chunk. |
| `NoosTheorems.FreeListIsFreeChunks` | noos/malloc.c:72-76 | Walking the list meets exactly the free chunks, in rising address order. |
| `NoosTheorems.FreeChunksApart` | noos/malloc.c:95-121 | Between two free chunks there is a live one. |
| `NoosTheorems.AllFreedIsOne` | noos/malloc.c:95-121 | Once everything is freed the heap is one free chunk. |
| `NoosTheorems.PayloadsApart` | noos/malloc.c:165-201 | Two pointers handed out never share a byte. |
| `NoosTheorems.FreeUndoesTake` | noos/malloc.c:97-190 | Releasing a chunk right after it was taken restores the chunks as they were. |
| `NoosTheorems.LargestRequest` | noos/malloc.c:88-93 | Too large are exactly the requests above half of what a word of the target holds. |
| `Fnmatch.ReadItem` | fnmatch.c:73-83 | One character or range of a bracket, escapes included, without reading past the terminator. |
| `Fnmatch.Bracket` | fnmatch.c:57-110 | A bracket hits exactly if the character is in the set it writes, negation, ranges, case folding and the slash rule included; after is set exactly if it is closed. |
| `Fnmatch.TryElement` | fnmatch.c:152-188 | One element against one character hits exactly as its meaning says and moves the pattern to the element's end. |
| `FnmatchPattern.SlashOnly` | fnmatch.c:104-108 | Under FNM_PATHNAME an element that a slash matches matches nothing else. |
| `FnmatchStar.StepsShift` | fnmatch.c:190-203 | The same elements further on take the same number of characters. |
| `FnmatchStar.SlashShift` | fnmatch.c:190-203 | If no slash lies between two starts of the same elements, none lies between their ends. |
| `FnmatchStar.NewStarSuffices` | fnmatch.c:134-150 | Forgetting the older star loses no match, under FNM_PERIOD too: giving it more characters finds nothing the newer one does not find. |
| `FnmatchStar.GiveMore` | fnmatch.c:190-203 | When what follows the star fails, the star matches from here exactly if it may take this character and matches from the next. |
| `FnmatchStar.ForcedSlash` | fnmatch.c:128-132 | Once the elements behind a star have met a slash the star has no other place; so a refused dot there ends the search. |
| `Fnmatch.Fnmatch` | fnmatch.c:112-208 | For every combination of the five flags the result is 0 exactly if the pattern matches in the exists-a-split sense; the main loop makes at most (|string|+1)*(|pattern|+1) rounds. |
| `FnmatchGlob.PatternDenotes` | fnmatch.c:57-208 | A pattern written from literal characters, '?', stars and sets, with backslashes and in any spelling of a set, matches exactly the strings that these parts denote. |
| `FnmatchLaws.TextMatchesItself` | fnmatch.c:174-187 | Text without special characters matches itself only, letter case apart under FNM_CASEFOLD. |
| `FnmatchLaws.StarMatchesBetween` | fnmatch.c:134-150 | text*text matches what starts with the one and ends with the other; in between is no slash under FNM_PATHNAME and no hidden dot in front under FNM_PERIOD. |
| `FnmatchLaws.QuestionMark` | fnmatch.c:171-173 | '?' matches every one character but a slash under FNM_PATHNAME and a hidden dot under FNM_PERIOD. |
| `FnmatchLaws.Escaped` | fnmatch.c:174-181 | A character behind a backslash matches itself; a dot so written does not match a hidden dot. |
| `FnmatchLaws.Unquoting` | fnmatch.c:174-187 | With FNM_NOESCAPE a backslash matches itself. |
| `FnmatchLaws.LastBackslash` | fnmatch.c:176 | So does a backslash at the pattern's end. |
| `FnmatchLaws.SetMatchesListed` | fnmatch.c:62-109 | [abc] matches the characters listed, [!abc] and [^abc] all others, never a slash under FNM_PATHNAME. |
| `FnmatchLaws.BracketFirst` | fnmatch.c:66-70 | A ']' first belongs to the set. |
| `FnmatchLaws.RangeMatchesBetween` | fnmatch.c:77-97 | [a-z] matches what lies between a and z. |
| `FnmatchLaws.OpenBracket` | fnmatch.c:163-166 | A '[' that nothing closes matches itself. |
| `FnmatchCase.CaseBlind` | fnmatch.c:41-46 | With FNM_CASEFOLD and without ranges, patterns that differ only in letter case match strings that differ only in letter case alike. |
| `FnmatchCase.RangeCase` | fnmatch.c:86-94 | A range and the same range in other case match alike if and only if they are the same as written or neither spreads: begins with a capital and ends beyond Z, or begins at Z or before and ends between Z and z. |
| `FnmatchCase.CaseMatters` | fnmatch.c:86-94 | [Z-a] finds '_' and [z-a] does not. |
| `FnmatchFlags.LeadingDir` | fnmatch.c:120-126 | With FNM_LEADING_DIR a pattern matches if and only if without it it matches the string or some leading part that a slash follows. |
| `FnmatchFlags.NothingHidden` | fnmatch.c:128-132 | FNM_PERIOD changes nothing for strings in which no segment starts with a dot. |
| `FnmatchFlags.HiddenName` | fnmatch.c:28-32 | A string that starts with a dot is then only matched by a pattern that starts with one. |
| `FnmatchFlags.EscapedDot` | fnmatch.c:128-132 | The dot has to stand there unescaped: \. matches a dot exactly without FNM_PERIOD. |
| `Sorting.Swap` | qsort.c:7-18 | Exchanges two blocks of any size through a 256-byte buffer and touches no other byte. |
| `Sorting.SiftStep` | qsort.c:21-27 | Exchanging a node with its greatest child moves the one misplaced node down. |
| `Sorting.Fix` | qsort.c:20-32 | Sifting extends the heap by one node, permuting only the nodes of the heap; node 0 has node 1 as its only child. |
| `Sorting.RootIsGreatest` | qsort.c:41-44 | No element of the heap is above node 0. |
| `Sorting.BuildHeap` | qsort.c:39-40 | The first loop makes a heap of the whole array. |
| `Sorting.Qsort` | qsort.c:34-45 | A sorted permutation of the input, for every length and every total preorder. |
| `Sorting.SortedIsPartitioned` | qsort.c:47-63 | What qsort leaves can be searched for every key. |
| `Sorting.Bsearch` | qsort.c:47-63 | An index of an equal element, NULL exactly if there is none. |
| `StringWords.MissesMeans` | string.c:9-23 | HASZERO of a word xored with the repeated character is zero exactly if none of its bytes is the character. |
| `StringWords.HasZeroIsZeroByte` | string.c:12 | The borrow trick finds a zero byte exactly when there is one. |
| `StringCopy.MovedUp` | string.c:121-182 | Ascending copying reads no byte it has overwritten when d is not above s. |
| `StringCopy.MovedDown` | string.c:208-234 | Descending copying reads no byte it has overwritten when d is above s. |
| `StringCopy.CopyFew` | string.c:166-178 | One to three bytes without a loop, overlaps with d below s included. |
| `StringCopy.Memcpy` | string.c:121-182 | The destination holds the source bytes as they were, all else unchanged, for every length and alignment, also for overlaps with d below s; word stores are aligned. |
| `StringCopy.Memmove` | string.c:201-235 | The same for every overlap. |
| `StringCopy.Memset` | string.c:43-119 | Exactly the num bytes become the low byte of the value. |
| `StringCopy.Memchr` | string.c:14-29 | The first occurrence among n bytes, NULL exactly if there is none, reading whole words only inside the range. |
| `Calendar.NextDayNumber` | localtime.c:29-44 | Day numbers follow the calendar's next day through month ends, leap days and year ends. |
| `Calendar.DateOfNumber` | localtime.c:60-80 | Counting days from 1970 reaches every date, at its number. |
| `CalendarDays.DayNumberByFormula` | localtime.c:7 | The day numbers are those of the Gregorian calendar's formula, which has neither leap year rule nor month table: 365 days a year and quotients by 4, 100 and 400, (153*m+2)/5 days for m months from March on. |
| `CalendarDays.MonthByFormula` | localtime.c:19 | A date exists exactly if its number is below that of the next month's first. |
| `Localtime.Tp2tm` | localtime.c:18-45 | The fields are those of the date that many days after 1970-01-01 and of the time of day; also for times before 1970, where they are counted back in January 1970. From 1970 on they are those of the Gregorian formula. |
| `Localtime.Mktime` | localtime.c:60-80 | The seconds of the date and time, reduced to an int, plus the timezone; tm_yday is set. From 1970 on the date counts as the Gregorian formula says. |
| `Localtime.BrokenByFormula` | localtime.c:18-45 | From 1970 on the fields of a time are the only ones in their ranges that the formula leads back to it. |
| `Localtime.WrapIs` | localtime.c:79 | The int sum keeps the number modulo 256^4, from -256^4/2 on. |
| `Localtime.Gmtime` | localtime.c:54-58 | tp2tm of the time, and by the Gregorian formula from 1970 on. |
| `Localtime.Localtime` | localtime.c:47-52 | tp2tm of the time less the timezone, and by the Gregorian formula from 1970 on. |
| `Localtime.NormalFromEpoch` | localtime.c:18-45 | All fields are in their calendar ranges exactly for times from 1970 on. |
| `Localtime.SecondsOfBroken` | localtime.c:18-80 | mktime's sum undoes tp2tm for every time, before 1970 too. |
| `Localtime.BrokenOfSeconds` | localtime.c:18-80 | tp2tm undoes mktime's sum on every normalised date from 1970 on. |
| `Localtime.MktimeUndoesLocaltime` | localtime.c:47-80 | mktime(localtime(t)) is t if and only if t - timezone fits an int. |
| `Localtime.LocaltimeUndoesMktime` | localtime.c:47-80 | localtime(mktime(tm)) gives back every normalised tm whose seconds fit an int. |
| `Localtime.OneDayLater` | localtime.c:27-44 | A day later the date is the calendar's next day and the weekday has moved on by one. |
| `Localtime.EpochIsThursday` | localtime.c:27 | Time 0 is Thursday, 1970-01-01 00:00:00. |
| `NumberText.ValueOfDigits` | stdio.c:662-666 | The digits written for a number have its value. |
| `NumberPrint.CountDigits` | stdio.c:334-339 | digits counts the digits that are written. |
| `NumberPrint.PutDigits` | stdio.c:662-667 | The buffer holds the digits, most significant first, and a terminator. |
| `NumberPrint.AtMost22` | stdio.c:623 | No 64-bit number needs more than 22 digits in bases 8 to 16: the buffer suffices. |
| `NumberPrint.Sink.Ostr` | stdio.c:302-332 | Without width and precision ostr writes the string up to its terminator. |
| `NumberPrint.Sink.Oint` | stdio.c:621-706 | Sign or base prefix and digits of the number cut to its size, padded to the width on the side and with the character the flags say; the count is returned. |
| `NumberLaws.SignedText` | stdio.c:635-655 | A signed number is printed as '-' and its magnitude, or as '+', a blank or nothing and its digits as the flags say, in every size. |
| `NumberLaws.UnsignedText` | stdio.c:656-666 | An unsigned one as its digits, with '#' behind 0x, 0X or 0 unless it is zero. |
| `NumberLaws.Widened` | stdio.c:668-703 | A width fills up to exactly its length: blanks in front, or behind, or zeros between prefix and digits. |
| `NumberLaws.DigitsOfBase` | atoi.c:35-49 | In base b the digits are the first b of 0-9 and the alphabet, in either case, up to base 36. |
| `NumberLaws.WhiteSpace` | ctype.c:31-33 | White space is the blank and the characters from tab to carriage return. |
| `NumberLaws.Limits` | atoi.c:51-237 | The limits are those of 8- and 4-byte objects. |
| `NumberLaws.NothingToRead` | atoi.c:148-190 | Without a digit behind white space and sign nothing is converted. |
| `NumberLaws.LonePrefix` | atoi.c:122-146 | A prefix without digits is read as the zero it starts with. |
| `NumberTrips.PiecesParse` | atoi.c:122-237 | In every base from 2 to 36, and in base 0 where the prefix says which, white space, sign, prefix and digits are read as the number they write, up to the first character that is no digit. |
| `NumberParse.CutoffIsLimit` | atoi.c:165-172 | The one-division test says exactly whether one more digit passes the limit. |
| `NumberParse.ReadDigits` | atoi.c:165-172 | Reads the longest digit run; overflow exactly if its value is above the limit, otherwise the exact value. |
| `NumberParse.StrtoBase` | atoi.c:122-146 | Base and start of the digits as the prefix says. |
| `NumberParse.Strtoull` | atoi.c:148-190 | The exact value, negated modulo 2^64 after a minus sign, if it fits; otherwise ULLONG_MAX and ERANGE; endptr behind the longest subject, or back at the start. |
| `NumberParse.Strtoll` | atoi.c:192-237 | The exact signed value if it fits, otherwise the limit on its side and ERANGE. |
| `NumberParse.Strtol` | atoi.c:51-63 | Likewise narrowed to 32 bits. |
| `NumberParse.Strtoul` | atoi.c:67-87 | Range-checked on the magnitude in 32 bits; errno stays as it was unless the number is out of range. |
| `NumberScan.SameDigits` | scanf.c:70-74 | scanf's digits are strtol's in bases 8, 10 and 16. |
| `NumberScan.Stream.Sget` | scanf.c:84-89 | The next character is consumed and counted. |
| `NumberScan.Stream.Sunget` | scanf.c:91-96 | A character given back is read again and not counted. |
| `NumberScan.Stream.SkipSpace` | scanf.c:98-103 | Consumes exactly the leading white space. |
| `NumberScan.Stream.ScanInt` | scanf.c:117-157 | Sign, prefix and digits within the width; the value modulo 2^64; consumes and counts exactly what it used. |
| `NumberTrips.MagnitudeIsPrinted` | stdio.c:635-661 | Negating in 64 bits and cutting to the size gives the magnitude of the signed value, the least one included. |
| `NumberTrips.ParseReadsOint` | stdio.c:621-706 | strtoull and strtoll find in oint's output, with any width and flags, the number printed, and stop behind it. |
| `NumberTrips.ScanReadsOint` | scanf.c:117-157 | So does scan_int. |
| `NumberTrips.PrintAndStrtoull` | atoi.c:148-190 | Every unsigned 64-bit number printed in bases 8, 10 and 16 is read back. |
| `NumberTrips.PrintAndStrtoll` | atoi.c:192-237 | Every signed 64-bit number printed is read back, the least one included. |
| `NumberTrips.PrintAndScan` | scanf.c:117-157 | Every integer of 1, 2, 4 or 8 bytes printed is scanned back. |

## Left out

Regular expressions:
- The parser apart from bracket expressions, and character classes, equivalence classes and REG_ICASE in them; parsed trees are inputs.
- Assertions, back references and the backtracking matcher; minimal (non-greedy) repetitions.
- Tag placement (`tre_add_tags`): tags are inputs of the matcher.
- RegexExec.RunParallel: that no match starts earlier is not claimed once two paths with the same start have tied for the final state, because that branch (`regexec.c:433-446`) takes a match over without comparing starts.
- Multi-byte characters: this library's `mbtowc` reads single bytes (`wchar.c:28-36`), so positions in the subject are indices.
- Allocation failure inside regcomp; `tre_mem` is the arena.
- RegexBracket.ParseTerms: what follows a `[:` where a term begins is not covered, because classes are not modelled; reading stops there with a result of its own.
- RegexBracket.ParseBracket: likewise for a bracket with a class in it; REG_ESPACE is only bounded (more than 32768 literals).
- RegexNfl.SetUnion: tags and assertions, which the source attaches to the entries of a union, are not carried.

The pool allocator:
- The vfork window, the locks, MALLOC_DEBUG and MALLOC_ZEROES.
- Request sizes close to INT_MAX, where the rounding of the source overflows, and the overflow check of calloc.
- calloc, memalign and aligned_alloc, which are one call each around what is modelled; realloc_trim's statistics.
- Exact conservation of bytes inside a pool and 8-byte alignment of every block: the source has neither (a remainder below 16 bytes is given away with its block; skipping a page boundary adds 4 bytes).

The break-based allocator:
- The break moved by anything but the allocator, the locks, calloc, and request sizes whose chunk exceeds a signed break increment.
- The bit test for a power of two and the mask that rounds up are stated as the arithmetic they do.

Glob matching:
- Ranges compare characters as unsigned codes, as plain `char` is on ARM; letters are those of ASCII.

Algorithms:
- StringCopy.Memchr: negative lengths, for which the source has no bound, are not covered; words are those of the 32-bit target.
- Sorting.Qsort: elements are values; that a swap of elements is a swap of their bytes is Sorting.Swap.
- Localtime.Tp2tm: year numbers above an int, which only a 64-bit time reaches, do not wrap around.
- NumberPrint.Sink.Oint: precisions, the stream's buffer and write errors are not modelled.
- NumberPrint.Sink.Ostr: as `oint` calls it without a precision; width, fill and a precision are not modelled.
- The rest of printf and scanf, floating point, `va_list` decoding, atoi and atol, and storing a scanned value into an object of its size.
- System calls, file descriptors, paths, locale tables and the other libraries' one-line functions.
