/** `insert(address, data)` (test_base.py:127-271): after a search miss,
    build the missing trie levels one victim per level, then tag the leaf,
    store the data value and record the leaf in the fast-path table. */
module Insertion {
  import opened CacheTypes
  import FastPath
  import opened Search
  import opened Replacement

  /** One pass of the `while (current_level <= num_BTH)` body: pick a
      victim, link it under its parent, evict what it held, install the new
      block and advance the cursor past it. Returns the new state and the
      victim, which becomes `last_BTH`. */
  function LevelF(st: State, addr: nat, level: int, last: int): (r: Outcome<(State, int)>)
    requires Wf(st) && 0 <= st.cursor && addr < AddressSpace && 1 <= level <= NumBth
    ensures r.Ok? ==> Wf(r.value.0) && -1 <= r.value.1 < Capacity && r.value.0.cursor == Next(r.value.1)
    ensures r.Ok? && RefsBounded(st.pool) ==> RefsBounded(r.value.0.pool)
    ensures r.Ok? ==> |r.value.0.tlb.order| <= |st.tlb.order|
    ensures r.Ok? && BlockTag(addr) !in st.tlb.entries ==> r.value.0.tlb == st.tlb
  {
    assert !st.pool[0].dut.locked;
    var scan := ScanF(st.pool, st.cursor, 0, -1);
    ScanResetsOnly(st.pool, st.cursor, 0, -1);
    var v := Victim(scan);
    var s1 := st.(pool := scan.pool, cursor := v);
    var s2 :- LinkF(s1, addr, level, last);
    var s3 :- EvictF(s2, addr);
    var s4 := InstallF(s3, addr, level, last);
    Ok((s4.(cursor := Next(v)), v))
  }

  /** The levels built, the victims chosen (one per level, in order) and
      the final state. */
  datatype Built = Built(st: State, last: int, victims: seq<int>)

  /** The build loop from `current_level` = level on. */
  function BuildF(st: State, addr: nat, level: int, last: int): (r: Outcome<Built>)
    requires Wf(st) && 0 <= st.cursor && addr < AddressSpace && 1 <= level
    ensures r.Ok? ==> Wf(r.value.st) && 0 <= r.value.st.cursor
    ensures r.Ok? ==> |r.value.victims| == (if level <= NumBth then NumBth + 1 - level else 0)
    ensures r.Ok? ==> r.value.last == (if level <= NumBth then r.value.victims[|r.value.victims| - 1] else last)
    decreases NumBth + 1 - level
  {
    if level > NumBth then Ok(Built(st, last, []))
    else
      var (s1, v) :- LevelF(st, addr, level, last);
      var rest :- BuildF(s1, addr, level + 1, v);
      Ok(Built(rest.st, rest.last, [v] + rest.victims))
  }

  /** Building keeps counters bounded, never grows the fast-path table, and
      leaves it alone when the key being inserted is absent from it. */
  lemma {:induction false} BuildKeeps(st: State, addr: nat, level: int, last: int)
    requires Wf(st) && 0 <= st.cursor && addr < AddressSpace && 1 <= level
    requires BuildF(st, addr, level, last).Ok?
    ensures var r := BuildF(st, addr, level, last).value;
      && (RefsBounded(st.pool) ==> RefsBounded(r.st.pool))
      && |r.st.tlb.order| <= |st.tlb.order|
      && (BlockTag(addr) !in st.tlb.entries ==> r.st.tlb == st.tlb)
    decreases NumBth + 1 - level
  {
    if level <= NumBth {
      var (s1, v) := LevelF(st, addr, level, last).value;
      BuildKeeps(s1, addr, level + 1, v);
    }
  }

  /** test_base.py:145-155: the level the build starts at. After a miss in
      the top table the build starts at level 1, and when the top entry is
      valid nonetheless, the block it names is orphaned first; after a miss
      below a block, the build starts one level below that block's level. */
  function StartF(st: State, addr: nat, anchor: int): (r: Outcome<(State, int)>)
    requires Wf(st) && addr < AddressSpace
    ensures r.Ok? ==> Wf(r.value.0) && r.value.0.cursor == st.cursor && r.value.0.tlb == st.tlb && 1 <= r.value.1
    ensures r.Ok? && RefsBounded(st.pool) ==> RefsBounded(r.value.0.pool)
    ensures r.Ok? ==> r.value.0.top == st.top
    // After a top-table miss: a valid top entry's block is orphaned and nothing else changes.
    ensures anchor == -1 ==>
      var e := st.top[TopSlot(addr)];
      && (r.Ok? <==> !e.valid || InBounds(e.index, Capacity))
      && (r.Ok? ==> r.value.1 == 1 && r.value.0 == (if e.valid then st.(pool := Orphan(st.pool, PyIndex(e.index, Capacity))) else st))
    // After a miss below a block: nothing changes.
    ensures anchor != -1 ==>
      && (r.Ok? <==> InBounds(anchor, Capacity))
      && (r.Ok? ==> r.value.0 == st && r.value.1 == st.pool[PyIndex(anchor, Capacity)].dut.level + 1)
  {
    if anchor == -1 then
      var e := st.top[TopSlot(addr)];
      if !e.valid then Ok((st, 1))
      else if !InBounds(e.index, Capacity) then Raise(IndexError)
      else Ok((st.(pool := Orphan(st.pool, PyIndex(e.index, Capacity))), 1))
    else if !InBounds(anchor, Capacity) then Raise(IndexError)
    else Ok((st, st.pool[PyIndex(anchor, Capacity)].dut.level + 1))
  }

  /** test_base.py:261-271: tag the block `last_BTH`, store the data value
      at the address's offset and record the block in the fast-path table. */
  function FinishF(st: State, addr: nat, data: Cell, last: int): (r: Outcome<State>)
    requires Wf(st) && 0 <= st.cursor
    ensures r.Ok? ==> Wf(r.value) && r.value.cursor == st.cursor
    ensures r.Ok? && RefsBounded(st.pool) ==> RefsBounded(r.value.pool)
    ensures r.Ok? ==>
      && r.value.tlb == FastPath.Add(st.tlb, BlockTag(addr), last)
      && InBounds(last, Capacity)
      && var b := r.value.pool[PyIndex(last, Capacity)];
      && b.tt.tag == BlockTag(addr)
      && addr % BlockSize < |b.data| && b.data[addr % BlockSize] == data
    // Nothing else changes: the top table, every other slot, and in block
    // `last_BTH` its records but the tag and its cells but the one written.
    ensures r.Ok? <==> InBounds(last, Capacity) && addr % BlockSize < |st.pool[PyIndex(last, Capacity)].data|
    ensures r.Ok? ==>
      && r.value.top == st.top && |r.value.pool| == |st.pool|
      && (forall k :: 0 <= k < |st.pool| && k != PyIndex(last, Capacity) ==> r.value.pool[k] == st.pool[k])
      && var b0 := st.pool[PyIndex(last, Capacity)];
      && var b := r.value.pool[PyIndex(last, Capacity)];
      && b.dut == b0.dut && b.tt.parent == b0.tt.parent
      && b.data == b0.data[addr % BlockSize := data]
  {
    if !InBounds(last, Capacity) then Raise(IndexError)
    else
      var k := PyIndex(last, Capacity);
      var b := st.pool[k];
      var off := addr % BlockSize;
      if off >= |b.data| then Raise(IndexError)
      else
        var b1 := Block(b.dut, b.tt.(tag := BlockTag(addr)), b.data[off := data]);
        Ok(st.(pool := st.pool[k := b1], tlb := FastPath.Add(st.tlb, BlockTag(addr), last)))
  }

  /** What an insertion did: the final state, the block the miss was
      reported at (`last_BTH` as the search returned it), the first level
      built, the victims chosen, and the block that received the data. */
  datatype Inserted = Inserted(st: State, anchor: int, start: int, victims: seq<int>, leaf: int)

  /** `insert(address, data)`: the two `assert` statements become an
      AssertionError, as Python raises them. The only change an insertion
      makes to the fast-path table is the final `cache_TLB[key] = last_BTH`
      with its FIFO pop: the cleanup on leaf eviction removes the key being
      inserted, which the second `assert` has just shown absent, so it never
      removes anything, and entries naming evicted leaves survive. The new
      entry names the block that now carries the key's tag and holds the
      data value at the address's offset. The levels built are
      start..NumBth, one victim each, where start is 1 after a top-table
      miss and one below the anchor block's level otherwise; the data goes
      to the last victim, or to the anchor itself when no level is missing. */
  function InsertF(st: State, addr: nat, data: Cell): (r: Outcome<Inserted>)
    requires Wf(st) && 0 <= st.cursor
    ensures r.Ok? ==> Wf(r.value.st) && 0 <= r.value.st.cursor
    ensures r.Ok? ==>
      && r.value.st.tlb == FastPath.Add(st.tlb, BlockTag(addr), r.value.leaf)
      && InBounds(r.value.leaf, Capacity)
      && var b := r.value.st.pool[PyIndex(r.value.leaf, Capacity)];
      && b.tt.tag == BlockTag(addr)
      && addr % BlockSize < |b.data| && b.data[addr % BlockSize] == data
    ensures r.Ok? ==>
      && addr < AddressSpace
      && (InBounds(r.value.anchor, Capacity) || r.value.anchor == -1)
      && r.value.start == (if r.value.anchor == -1 then 1 else st.pool[PyIndex(r.value.anchor, Capacity)].dut.level + 1)
      && |r.value.victims| == (if r.value.start <= NumBth then NumBth + 1 - r.value.start else 0)
      && r.value.leaf == (if r.value.victims == [] then r.value.anchor else r.value.victims[|r.value.victims| - 1])
  {
    var (h, pool1) :- SearchF(st, addr);
    SearchOnlyBumps(st, addr);
    if h.found then Raise(AssertionError)
    else if BlockTag(addr) in st.tlb.entries then Raise(AssertionError)
    else
      var (s2, level) :- StartF(st.(pool := pool1), addr, h.index);
      var b :- BuildF(s2, addr, level, h.index);
      BuildKeeps(s2, addr, level, h.index);
      var s3 :- FinishF(b.st, addr, data, b.last);
      Ok(Inserted(s3, h.index, level, b.victims, b.last))
  }

  // ---------------------------------------------------------------------
  // Properties
  // ---------------------------------------------------------------------

  /** An insertion returns only after a search that found nothing and with
      the key absent from the fast-path table; otherwise it raises. */
  lemma InsertRequiresMiss(st: State, addr: nat, data: Cell)
    requires Wf(st) && 0 <= st.cursor
    ensures SearchF(st, addr).Ok? && SearchF(st, addr).value.0.found ==> InsertF(st, addr, data) == Raise(AssertionError)
    ensures SearchF(st, addr).Ok? && BlockTag(addr) in st.tlb.entries ==> InsertF(st, addr, data) == Raise(AssertionError)
    ensures InsertF(st, addr, data).Ok? ==>
      && SearchF(st, addr).Ok? && !SearchF(st, addr).value.0.found
      && BlockTag(addr) !in st.tlb.entries
      && InsertF(st, addr, data).value.anchor == SearchF(st, addr).value.0.index
  {
  }

  /** Insertion keeps the invariant: shapes, no lock or dirty bit set,
      counts in 0..RefLimit, the fast-path table at most one over TlbSize. */
  lemma InsertInvariant(st: State, addr: nat, data: Cell)
    requires Invariant(st)
    requires InsertF(st, addr, data).Ok?
    ensures Invariant(InsertF(st, addr, data).value.st)
  {
    var (h, pool1) := SearchF(st, addr).value;
    SearchOnlyBumps(st, addr);
    var (s2, level) := StartF(st.(pool := pool1), addr, h.index).value;
    var b := BuildF(s2, addr, level, h.index).value;
    BuildKeeps(s2, addr, level, h.index);
    FastPath.AddBound(b.st.tlb, BlockTag(addr), b.last);
  }

  /** When the victim held no live block with a parent, nothing is
      unlinked, and after the level is built the parent entry at the
      selector the search uses points to the victim: the top entry at
      level 1, otherwise the entry of block `last` (unless the victim is
      that very block, whose payload the installation replaces). */
  lemma LevelLinks(st: State, addr: nat, level: int, last: int)
    requires Wf(st) && 0 <= st.cursor && addr < AddressSpace && 1 <= level <= NumBth
    requires LevelF(st, addr, level, last).Ok?
    requires var scan := (assert !st.pool[0].dut.locked; ScanF(st.pool, st.cursor, 0, -1));
      !scan.pool[PyIndex(Victim(scan), Capacity)].dut.parentValid
    ensures var (s, v) := LevelF(st, addr, level, last).value;
      && (level == 1 ==> s.top[TopSlot(addr)] == BthEntry(true, v))
      && (level > 1 ==> InBounds(last, Capacity))
      && (level > 1 && PyIndex(last, Capacity) != PyIndex(v, Capacity) ==>
            var p := s.pool[PyIndex(last, Capacity)].data;
            Selector(addr, level) < |p| && p[Selector(addr, level)] == Entry(BthEntry(true, v)))
  {
  }

  /** Link before unlink, as written: a live level-1 victim whose parent
      field names the very top entry just linked to it has that entry
      invalidated by its own unlinking, so the new level-1 block is left
      unreachable from the top table. */
  lemma LevelUnlinksOwnLink()
    ensures
      var leaf1 := Block(Dut(true, false, false, 1, true, 0), Tt(0, 0), seq(Fanout, j => Entry(FreshEntry)));
      var st := State(seq(TopSize, t => FreshEntry), seq(Capacity, k => if k == 0 then leaf1 else EmptyBlock), FastTable([], map[]), 0);
      && Wf(st) && LevelF(st, 0, 1, -1).Ok?
      && LevelF(st, 0, 1, -1).value.1 == 0
      && !LevelF(st, 0, 1, -1).value.0.top[TopSlot(0)].valid
  {
    var leaf1 := Block(Dut(true, false, false, 1, true, 0), Tt(0, 0), seq(Fanout, j => Entry(FreshEntry)));
    var st := State(seq(TopSize, t => FreshEntry), seq(Capacity, k => if k == 0 then leaf1 else EmptyBlock), FastTable([], map[]), 0);
    assert st.pool[0] == leaf1;
    var scan := ScanF(st.pool, 0, 0, -1);
    assert scan == Scan(st.pool, 0, 0, -1);
    var s2 := LinkF(st, 0, 1, -1).value;
    assert s2.top[0] == BthEntry(true, 0);
    var s3 := UnlinkF(s2).value;
    assert !s3.top[0].valid;
    var p := OrphanF(s3.pool, 0, 0);
    OrphanNoChildren(s3.pool, 0, 0);
    assert EvictF(s2, 0) == Ok(s3.(pool := p.value));
  }
}
