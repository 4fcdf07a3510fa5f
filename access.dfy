/** `accessFunctional(block_addr, data, isWrite)` (test_base.py:82-109):
    search the trie, resolve the block through the fast-path table first and
    the search's hit second, then read or write one data value. */
module Access {
  import opened CacheTypes
  import FastPath
  import opened Search
  import opened Insertion

  /** What an access returns, `(hit, data)`, and the state it leaves. */
  datatype Accessed = Accessed(hit: bool, data: Cell, st: State)

  /** test_base.py:103-108: read or write the value at the address's offset
      in block k. A write returns the value written. */
  function Operate(st: State, k: int, addr: nat, data: Cell, isWrite: bool): (r: Outcome<(Cell, State)>)
    requires Wf(st)
    ensures r.Ok? ==> Wf(r.value.1) && r.value.1.top == st.top && r.value.1.tlb == st.tlb && r.value.1.cursor == st.cursor
    ensures r.Ok? ==> InBounds(k, Capacity) && addr % BlockSize < |st.pool[PyIndex(k, Capacity)].data|
    ensures r.Ok? && isWrite ==>
      && r.value.0 == data
      && r.value.1.pool == st.pool[PyIndex(k, Capacity) := st.pool[PyIndex(k, Capacity)].(data := st.pool[PyIndex(k, Capacity)].data[addr % BlockSize := data])]
    ensures r.Ok? && !isWrite ==> r.value.0 == st.pool[PyIndex(k, Capacity)].data[addr % BlockSize] && r.value.1 == st
    ensures InBounds(k, Capacity) && addr % BlockSize < |st.pool[PyIndex(k, Capacity)].data| ==> r.Ok?
  {
    if !InBounds(k, Capacity) then Raise(IndexError)
    else
      var i := PyIndex(k, Capacity);
      var b := st.pool[i];
      var off := addr % BlockSize;
      if off >= |b.data| then Raise(IndexError)
      else if isWrite then Ok((data, st.(pool := st.pool[i := b.(data := b.data[off := data])])))
      else Ok((b.data[off], st))
  }

  /** The access: the search runs first and its counter updates stay even
      when the fast-path table answers. */
  function AccessF(st: State, addr: nat, data: Cell, isWrite: bool): (r: Outcome<Accessed>)
    requires Wf(st)
    ensures r.Ok? ==> Wf(r.value.st) && r.value.st.cursor == st.cursor && r.value.st.top == st.top
  {
    var (h, pool1) :- SearchF(st, addr);
    var s1 := st.(pool := pool1);
    var key := BlockTag(addr);
    if key in st.tlb.entries then
      var (d, s2) :- Operate(s1, st.tlb.entries[key], addr, data, isWrite);
      Ok(Accessed(true, d, s2))
    else if h.found then
      var (d, s2) :- Operate(s1.(tlb := FastPath.Add(st.tlb, key, h.index)), h.index, addr, data, isWrite);
      Ok(Accessed(true, d, s2))
    else Ok(Accessed(false, data, s1))
  }

  // ---------------------------------------------------------------------
  // Properties
  // ---------------------------------------------------------------------

  /** The block an access resolves to: the fast-path entry when the key is
      present, whatever the search found; otherwise the search's hit, which
      is then recorded in the table; otherwise none, and the access reports
      a miss, returns its data argument and leaves the table alone. */
  lemma AccessResolution(st: State, addr: nat, data: Cell, isWrite: bool)
    requires Wf(st)
    requires SearchF(st, addr).Ok?
    ensures var (h, pool1) := SearchF(st, addr).value;
      var key := BlockTag(addr);
      var r := AccessF(st, addr, data, isWrite);
      && (key in st.tlb.entries ==>
            var o := Operate(st.(pool := pool1), st.tlb.entries[key], addr, data, isWrite);
            (r.Ok? <==> o.Ok?) && (o.Ok? ==> r.value == Accessed(true, o.value.0, o.value.1)))
      && (key !in st.tlb.entries && h.found ==>
            var o := Operate(st.(pool := pool1, tlb := FastPath.Add(st.tlb, key, h.index)), h.index, addr, data, isWrite);
            (r.Ok? <==> o.Ok?) && (o.Ok? ==> r.value == Accessed(true, o.value.0, o.value.1)))
      && (key !in st.tlb.entries && !h.found ==>
            r == Ok(Accessed(false, data, st.(pool := pool1))))
  {
  }

  /** An access keeps the invariant: counters stay bounded and the table
      grows by at most the one key it records. */
  lemma AccessInvariant(st: State, addr: nat, data: Cell, isWrite: bool)
    requires Invariant(st)
    requires AccessF(st, addr, data, isWrite).Ok?
    ensures Invariant(AccessF(st, addr, data, isWrite).value.st)
  {
    var (h, pool1) := SearchF(st, addr).value;
    SearchOnlyBumps(st, addr);
    FastPath.AddBound(st.tlb, BlockTag(addr), h.index);
  }

  /** After a write that hit, a read of the same address hits and returns
      the written value, provided its search completes: the key is now in
      the table and names the block written, and the search between them
      changes counters only. */
  lemma WriteThenRead(st: State, addr: nat, x: Cell, y: Cell)
    requires Wf(st)
    requires AccessF(st, addr, x, true).Ok? && AccessF(st, addr, x, true).value.hit
    requires SearchF(AccessF(st, addr, x, true).value.st, addr).Ok?
    ensures var s := AccessF(st, addr, x, true).value.st;
      && AccessF(s, addr, y, false).Ok?
      && AccessF(s, addr, y, false).value.hit
      && AccessF(s, addr, y, false).value.data == x
  {
    var s := AccessF(st, addr, x, true).value.st;
    var key := BlockTag(addr);
    var (h, pool1) := SearchF(st, addr).value;
    if key !in st.tlb.entries {
      FastPath.AddFifo(st.tlb, key, h.index);
    }
    assert key in s.tlb.entries;
    SearchOnlyBumps(s, addr);
  }

  /** Insert then read: once an insertion returns, the fast-path table names
      the block holding the inserted value, so a read of the address hits
      and returns it, provided its search completes. */
  lemma InsertThenRead(st: State, addr: nat, x: Cell, y: Cell)
    requires Wf(st) && 0 <= st.cursor
    requires InsertF(st, addr, x).Ok?
    requires SearchF(InsertF(st, addr, x).value.st, addr).Ok?
    ensures var s := InsertF(st, addr, x).value.st;
      && AccessF(s, addr, y, false).Ok?
      && AccessF(s, addr, y, false).value.hit
      && AccessF(s, addr, y, false).value.data == x
  {
    var r := InsertF(st, addr, x).value;
    FastPath.AddFifo(st.tlb, BlockTag(addr), r.leaf);
    SearchOnlyBumps(r.st, addr);
  }
}
