# Software-trie cache, modelled in Dafny

This project models the software-trie cache prototype in `test_base.py`. The cache resolves a 32-bit address with these parts:

- **Top table (`cache_L0T`).** It has 65536 entries, each covering 64 KiB of address space.
- **Trie levels ("BTH" levels).** The trie is `num_BTH` = 3 levels deep. Each top entry leads through levels 1 and 2, index blocks of 32 child entries, to a level-3 leaf block of 64 data cells.
- **Block pool (`cache_DBA`).** Every block of the trie lives in this pool of 512 slots. Each slot carries:
  - a `DUT` record: valid, dirty, locked, level, parent-valid and reference count;
  - a `TT` record: tag and parent;
  - its payload list.
- **Fast-path table (`cache_TLB`) and victim cursor (`VBIR`).** The table is a dict from block tag to pool index. It pops its oldest key before an insertion when it holds more than `TLB_size` keys, so it holds at most `TLB_size`+1.

The three operations are:

- **`CacheSearch`** walks the trie. It bumps the reference count, up to 32, of every block it reaches through a child entry; the level-1 block reached from the top table is not bumped.
- **`accessFunctional`** searches. It then resolves the block through the fast-path table first and the search result second, and reads or writes one value.
- **`insert`** builds the missing levels of the address's path. For each level it:
  1. picks a victim with a CLOCK-like scan, bounded to `MNA` = 5 counted attempts;
  2. links the victim under its parent;
  3. evicts what the victim held (unlinks it from its own parent, untags a leaf, orphans the children of an index block);
  4. installs a fresh block there.

  Finally it tags the leaf, stores the data value and records the leaf in the fast-path table.

The model has two layers:

- **Value layer.** Modules `CacheTypes`, `FastPath`, `Search`, `Replacement`, `Insertion` and `Access` give each step of the source as a function on a `State` value. They prove the step's properties as lemmas: reference descriptions, invariants and interactions between operations.
- **Imperative layer.** Class `TrieCache.Cache` keeps the source's own mutable state:
  - the top table and the pool as arrays;
  - the dict as its insertion order (`seq`) and its mapping (`map`);
  - the cursor.

  Its methods run the source's loops and updates in place. Each method is proved to compute its function exactly: it raises exactly when the function raises, with the same exception, and otherwise leaves exactly the state the function describes.

These Python semantics are modelled explicitly:

- negative list indices (`-1` is the last slot);
- `IndexError` for an index out of range;
- `AttributeError` when a data word is used as a child entry;
- `AssertionError` from the two `assert`s of `insert`.

The payload list holds child entries in index blocks and data values in leaves, so `Cell` is either an `Entry` or a `Word`.

## Model

| member | source | states |
|---|---|---|
| CacheTypes.ConfigurationFormulas | test_base.py:34-44 | the constants used are the source's formulas: fanout blockSize/2, capacity 2^15/blockSize, the top-entry span blockSize·32^(num_BTH-1), a top table of 2^32/span entries |
| CacheTypes.PyIndex | test_base.py:59-70 | a Python list index in -n..n-1 denotes a real element, and a non-negative index denotes itself |
| TrieCache.Pow | test_base.py:48-52 | `pow(x, e)` is x^e for e ≥ 1 and x itself for every e < 1, since the loop starts from x |
| TrieCache.InitialState | test_base.py:42-45 | the module's initial tables satisfy the invariant, with every top entry and every pool slot invalid |
| TrieCache.Cache.constructor | test_base.py:42-45 | builds the arrays: the initial view is InitialState and the object is valid |
| TrieCache.Cache.Search | test_base.py:54-79 | the in-place search loop raises exactly when SearchF does, returns its hit, and leaves the pool SearchF yields, with every other part of the state unchanged |
| TrieCache.Cache.TlbPut | test_base.py:92-97 | the dict update, with its pop of the first key when the length exceeds TLB_size, leaves exactly the table FastPath.Add describes |
| TrieCache.Cache.Access | test_base.py:82-109 | the access method agrees with AccessF on raising, on the (hit, data) pair and on the new state, and keeps the invariant |
| TrieCache.Cache.SelectVictim | test_base.py:158-179 | the victim loop leaves the pool of ScanF and sets VBIR to its victim (the fallback after MNA counted attempts); the fast-path table is untouched |
| TrieCache.ScanStep | test_base.py:161-175 | one turn of the scan: an acceptable unlocked slot ends it; another unlocked slot has its count reset and is counted; a locked slot is skipped and brings the cursor closer to an unlocked slot |
| TrieCache.Cache.Link | test_base.py:181-188 | the parent link update agrees with LinkF: the top entry at level 1, otherwise the entry of `last_BTH` at the level's selector, with IndexError and AttributeError where Python raises them |
| TrieCache.Cache.Unlink | test_base.py:196-204 | the unlink: at level 1 the top entry PT loses its valid bit; otherwise the first entry of block PT storing the victim's index does; exactly the state UnlinkF gives |
| TrieCache.Cache.OrphanChildren | test_base.py:214-218 | the orphaning loop leaves exactly the pool OrphanF gives, raising where it raises |
| TrieCache.Cache.Evict | test_base.py:194-232 | the eviction of the victim's old content leaves exactly the state EvictF gives |
| TrieCache.Cache.Install | test_base.py:234-248 | installs the fresh block as InstallF describes |
| TrieCache.Cache.Level | test_base.py:157-254 | one pass of the build loop (scan, link, evict, install, cursor advance) agrees with LevelF and returns the victim that becomes `last_BTH` |
| TrieCache.BuildStep | test_base.py:157-254 | a level that raises ends the build with its exception; one that returns leaves the rest of the build to reach the same end |
| TrieCache.Cache.Build | test_base.py:157-254 | the `while (current_level <= num_BTH)` loop agrees with BuildF on raising, on `last_BTH` and on the final state |
| TrieCache.Cache.Start | test_base.py:145-155 | the choice of the first level, with the orphaning of the top entry's block after a top-table miss, agrees with StartF |
| TrieCache.Cache.Finish | test_base.py:261-271 | tagging the leaf, storing the data and recording the leaf in the fast-path table agree with FinishF |
| TrieCache.Cache.Insert | test_base.py:127-271 | the whole insertion agrees with InsertF (the failed asserts becoming AssertionError) and keeps the invariant |
| FastPath.Add | test_base.py:92-97 | adding to the dict keeps its insertion order a duplicate-free list of exactly its keys |
| FastPath.Remove | test_base.py:209-210 | a guarded pop of a present key removes that key's entry and its one place in the insertion order, leaving the other keys in their order; an absent key leaves the table unchanged |
| FastPath.AddFifo | test_base.py:266-271 | after the update the key maps to the index given; every other surviving entry is unchanged; the only key dropped is the earliest inserted, and only when the table held more than TLB_size entries; a new key goes to the end of the order |
| FastPath.AddBound | test_base.py:266-268 | the table never holds more than TLB_size+1 entries, because the check runs before the key is added |
| Search.Validate | test_base.py:76-79 | the closing check raises IndexError exactly when the index is out of range; otherwise it returns that index, and reports a hit exactly when the block is valid, at level 3 and tagged with the address's block tag |
| Search.Walk | test_base.py:64-79 | a walk that returns keeps the pool's length and names a real slot: its index is a valid Python index into the pool |
| Search.SearchF | test_base.py:54-79 | an address from 2^32 up selects a top slot past the end and raises IndexError (in Python, addresses too large for a float raise OverflowError instead; see "Left out") |
| Search.WalkIsPathThenBumps | test_base.py:64-79 | the counting walk equals its reference description: follow the path the unbumped pool determines, conclude from it, and bump each block past the first exactly once |
| Search.PathIgnoresRefs | test_base.py:64-73 | reference counts never steer the walk: two pools that differ only in counts give the same path |
| Search.SearchTopInvalid | test_base.py:58-62 | an invalid top entry answers `(False, -1)` and changes nothing |
| Search.SearchIsPathThenBumps | test_base.py:58-79 | from a valid top entry the search is the reference walk started at that entry's index |
| Search.SearchOnlyBumps | test_base.py:69-70 | a search changes reference counts only, never lowers one, and keeps them in 0..32 |
| Search.SearchKeepsInvariant | test_base.py:54-79 | a search keeps the state well-formed and keeps the invariant |
| Search.SearchHitSound | test_base.py:76-79 | a hit names a valid level-3 block whose tag is the address's block tag, identical before and after the search except for its count |
| Search.SearchMissDeepest | test_base.py:64-77 | a miss from a valid top entry names the last block of the path: either the path reached full depth and that block failed the closing check, or that block's child entry for the address is invalid |
| Search.PathStopsAtInvalid | test_base.py:67-72 | a path shorter than full depth ends at a block whose child entry for the address is invalid |
| Search.SearchSentinelExact | test_base.py:58-72 | while no stored pointer is -1, the search answers `(False, -1)` if and only if the top entry is invalid |
| Search.SearchSentinelCollision | test_base.py:146-149 | in a well-formed state a valid top entry can store -1, the fallback victim; the search then answers `(False, -1)` although the top entry is valid |
| Replacement.Next | test_base.py:173-175 | the cursor advance is the successor modulo the capacity |
| Replacement.CursorApproaches | test_base.py:161-175 | stepping past a locked slot brings the cursor one step closer, going round the pool, to the first unlocked slot, so the scan terminates |
| Replacement.ScanF | test_base.py:161-175 | the scan ends on an unlocked acceptable slot unless it used all MNA counted attempts, and its result is a real slot or the initial `smallest_r_idx` |
| Replacement.ScanResetsOnly | test_base.py:161-175 | the scan changes nothing but reference counts, and sets to 0 each count it changes |
| Replacement.ScanReference | test_base.py:161-179 | with no slot locked, the scan examines the slots from the cursor round the pool; it resets exactly the unacceptable slots before the first acceptable one; it stops on that slot if it lies within the remaining attempts, otherwise just after the last slot counted |
| Replacement.ScanShapeStep | test_base.py:167-175 | counting one slot and then scanning from the next gives the reference shape from this slot |
| Replacement.ScanCounts | test_base.py:167-171 | an unlocked unacceptable slot has its count reset and is counted, and the scan continues from the next slot |
| Replacement.VictimChoice | test_base.py:178-179 | the victim of a whole scan (`Replacement.Victim`) is the acceptable unlocked slot the scan stopped on when attempts remained, otherwise -1; either way a valid Python index |
| Replacement.ScanFallback | test_base.py:159-179 | counts are never negative, so `R < smallest_r_idx` never holds: the fallback victim is always -1, the last pool slot |
| Replacement.LinkF | test_base.py:181-188 | linking sets the parent entry to (valid, VBIR): the top entry at level 1, otherwise the entry of `last_BTH` at the selector. No other top entry, slot or cell of `last_BTH` changes. At level 1 it always succeeds; deeper, it succeeds exactly when `last_BTH` is a valid index and the selected cell exists and is an entry |
| Replacement.ClearFirstMatch | test_base.py:200-204 | the unlink loop from position i keeps the payload's length and every cell before i or past the first 32, and raises only IndexError or AttributeError |
| Replacement.ClearFirstMatchReference | test_base.py:200-204 | the unlink scan raises only if one of the first 32 cells is missing or is not an entry; on success either no entry stores the victim and nothing changes, or the first one that does becomes invalid whatever its valid bit was, and nothing else changes |
| Replacement.UnlinkF | test_base.py:196-204 | for a level-1 victim, top entry PT loses its valid bit, and the unlink fails exactly when PT is out of range. Otherwise block PT's payload becomes the unlink scan's result, and the unlink fails exactly when PT is out of range or the scan raises. No DUT or TT record, the cursor or the fast-path table changes |
| Replacement.UnlinkReference | test_base.py:198-204 | unlinking a deeper victim changes only block PT's payload. Either none of its first 32 entries stores the victim's index and nothing changes, or exactly the first one that does loses its valid bit |
| Replacement.OrphanF | test_base.py:214-218 | the orphaning loop keeps the pool's length and every slot's payload and TT record, and raises only IndexError or AttributeError |
| Replacement.OrphanReference | test_base.py:214-218 | orphaning changes only parent-valid bits, and clears exactly those of the slots named by the victim's valid entries; grandchildren keep theirs |
| Replacement.OrphanNoChildren | test_base.py:214-218 | a block with no valid entries orphans nothing |
| Replacement.EvictF | test_base.py:194-232 | eviction keeps the state well-formed. The fast-path table loses at most the inserting address's key, and only for a live leaf victim. A live leaf victim's tag becomes 0. Counts and levels are unchanged. Without a parent, links and payloads are unchanged |
| Replacement.EvictReference | test_base.py:194-232 | a victim without live content is left alone. A live victim with a parent is unlinked as UnlinkF describes, and the result keeps the unlinked state's top table and payloads. A leaf victim then loses its tag and the inserting key's fast-path entry, and no other DUT or TT record changes. An internal victim then orphans exactly the slots its valid entries name, every other bit staying |
| Replacement.FreshPayload | test_base.py:236-239 | a fresh leaf payload is 64 zeros, an internal one 32 invalid entries |
| Replacement.InstallF | test_base.py:236-248 | installing keeps the state well-formed and counts bounded, and leaves the top table, the cursor and the fast-path table alone |
| Replacement.InstallReference | test_base.py:236-248 | the victim slot becomes a valid, parented block of the level with one reference and parent field PT; its fresh payload answers every search step with an invalid entry; every other slot is untouched |
| Insertion.LevelF | test_base.py:157-254 | one level keeps the state well-formed and counts bounded; the victim is -1..511 and the cursor lies just past it; the fast-path table is unchanged when the inserting key is absent |
| Insertion.BuildF | test_base.py:157-254 | the build loop picks one victim per missing level, and `last_BTH` is the last of them |
| Insertion.BuildKeeps | test_base.py:157-254 | building keeps counts bounded, never grows the fast-path table, and leaves it alone when the inserting key is absent |
| Insertion.StartF | test_base.py:145-155 | the top table, the cursor and the fast-path table stay. After a top-table miss the build starts at level 1: with an invalid top entry nothing changes; with a valid one, only its block is orphaned, and the start raises exactly when that entry's index is out of range. After a miss below block `anchor` nothing changes, the build starts one level below that block's level, and the start raises exactly when `anchor` is out of range |
| Insertion.FinishF | test_base.py:261-271 | the end of insert raises exactly when `last_BTH` or the offset is out of range. Otherwise it tags `last_BTH` with the block tag and stores the data at the address's offset, keeping the block's DUT record, parent and other cells. It records the block with FastPath.Add, and leaves the top table and every other slot unchanged |
| Insertion.InsertF | test_base.py:127-271 | a successful insertion leaves the fast-path table as FastPath.Add of the key and the leaf; the leaf carries the tag and holds the data; one victim is built per level from the start level to 3 |
| Insertion.InsertRequiresMiss | test_base.py:140-143 | an insertion raises AssertionError when the search hits or the key is in the fast-path table, and returns only after a search miss, with the miss index as anchor |
| Insertion.InsertInvariant | test_base.py:127-271 | insertion keeps the invariant: shapes, no lock or dirty bit, counts in 0..32, and at most TLB_size+1 fast-path entries |
| Insertion.LevelLinks | test_base.py:181-188 | when the victim had no parent, and below level 1 is not `last_BTH` itself, the level leaves the parent entry at the search's selector pointing to the victim |
| Insertion.LevelUnlinksOwnLink | test_base.py:181-199 | link before unlink: a live level-1 victim whose PT is the top entry just linked to it invalidates that entry, leaving the new block unreachable |
| Access.Operate | test_base.py:103-109 | the final read or write raises IndexError exactly when the index or the offset is out of range; a write returns the value written and changes exactly that cell; a read changes nothing |
| Access.AccessF | test_base.py:82-109 | an access keeps the state well-formed and leaves the cursor and the top table alone |
| Access.AccessResolution | test_base.py:84-99 | the fast-path entry decides the block whenever the key is present; otherwise a search hit decides it and is recorded; otherwise the access reports a miss, returns its data argument and changes only counts |
| Access.AccessInvariant | test_base.py:82-109 | an access keeps the invariant |
| Access.WriteThenRead | test_base.py:82-109 | after a write that hit, a read of the same address hits and returns the written value |
| Access.InsertThenRead | test_base.py:127-271 | after an insertion, a read of the address hits and returns the inserted value, as the driver's `assert(data==data2)` expects |

## Left out

- The driver loop that reads the address trace and counts misses (test_base.py:276-298) is I/O around the core.
- The debugging statements (test_base.py:190-191, 286-287) are left out; they do nothing.
- The write-back of a dirty leaf (test_base.py:219-232) is a comment followed by `pass`, and is modelled as changing nothing.
- `dbrc_cache.cc`, `test.cpp`, `run_dbrc_cache.py` and `DbrcCache.py` are not part of this model.
- After Python raises, the program ends. The model returns the exception and says nothing about the state left behind.
- `x & (blockSize-1)` and `& int(blockSize/2-1)` are modelled as `% 64` and `% 32`, which agree on the non-negative operands that occur.
- The float divisions `block_addr//L0T_offset` and `L0T_offset/pow(...)` are modelled as exact integer division. The floats are exact for addresses below 2^53.
- Search.SearchF: Python converts `block_addr` to a float before dividing by `L0T_offset` (test_base.py:41, 58). For a block address of at least 2^1024 - 2^970 that conversion raises OverflowError, where the model raises IndexError. Access.AccessF and Insertion.InsertF inherit this, since both begin with the search.
- Addresses are natural numbers: a negative address is not modelled.
- Access.WriteThenRead: it is stated only for a read whose own search completes without raising.
- Access.InsertThenRead: it is stated only for a read whose own search completes without raising. A stale pointer met by the search can raise before the fast-path table is consulted.
- Access.AccessResolution: the fast-path and found cases state that the access succeeds exactly when the final read or write does. They do not promise that it succeeds. A fast-path entry can name a reused block, which may be an index block whose payload has only 32 cells. A found hit would fail only if its leaf lacked 64 cells, and the invariant does not record that level-3 blocks hold 64 cells.
- Insertion.LevelLinks: it is stated only for a victim without a parent, and below level 1 only for a victim other than `last_BTH` itself. A victim with a parent can undo the link just made by its own unlinking; Insertion.LevelUnlinksOwnLink exhibits this. A victim that is `last_BTH` itself has its payload, including the new link, replaced by the installation.
- The comparison `R < smallest_r_idx` (test_base.py:168) compares a count with an index. It is modelled as written, so the "minimum-reference" fallback is always slot -1 (Replacement.ScanFallback).
- Eviction removes the fast-path key of the address being inserted, which the second assert has shown absent (test_base.py:209-210), so it never removes anything, as written. It does not remove the evicted leaf's own key, so fast-path entries can name reused blocks.
- The count bound is as written: counts grow while below 32, so they reach 32.
- The fast-path table may hold TLB_size+1 entries, as written, because the size check runs before the key is added.
- The top-miss branch of test_base.py:148-149 orphans the top entry's block. It is modelled as written. Search.SearchSentinelCollision shows that its condition can arise in a well-formed state; it does not show that such a state is reachable from the initial one.
- The level-1 unlink clears top entry PT (test_base.py:199) rather than searching for the entry that names the victim. The child unlink matches stored indices without consulting their valid bit. Both follow the code.
- Installation sets no dirty bit and writes set none (test_base.py:103-105, 241-244). No operation sets D, so the dirty bit stays false in every reachable state.
- The lock bit is never set, so SelectVictim's requirement of some unlocked slot always holds. The victim scan (test_base.py:161-175) would never end if every slot were locked, because a locked slot is skipped without being counted towards MNA. That is why Replacement.ScanF requires an unlocked slot.
