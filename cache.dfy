/** The cache as the source keeps it: module-level tables updated in place
    by `CacheSearch`, `accessFunctional` and `insert` (test_base.py:42-271).
    Each method is proved to compute, step by step, the function of the same
    name in modules Search, Replacement, Insertion and Access: it raises
    exactly when that function raises, with the same exception, and
    otherwise leaves exactly the state that function describes. */
module TrieCache {
  import opened CacheTypes
  import FastPath
  import opened Search
  import opened Replacement
  import opened Insertion
  import opened Access

  /** `pow(x, e)`: the loop starts from x and multiplies e-1 more times, so
      every exponent below 2 yields x itself. */
  method Pow(x: int, e: int) returns (y: int)
    ensures y == Power(x, if e >= 1 then e else 1)
  {
    y := x;
    var i := 1;
    while i < e
      invariant 1 <= i && (i <= e || i == 1)
      invariant y == Power(x, i)
    {
      y := y * x;
      i := i + 1;
    }
  }

  /** The state the module starts in (test_base.py:42-45): an empty
      fast-path table, `VBIR` at 0, fresh top entries and empty pool slots. */
  function InitialState(): (st: State)
    ensures Invariant(st)
    ensures forall t :: 0 <= t < |st.top| ==> !st.top[t].valid
    ensures forall k :: 0 <= k < |st.pool| ==> !st.pool[k].dut.valid
  {
    State(seq(TopSize, _ => FreshEntry), seq(Capacity, _ => EmptyBlock), FastTable([], map[]), 0)
  }

  /** Two build outcomes that agree on everything but the list of victims. */
  ghost predicate SameEnd(a: Outcome<Built>, b: Outcome<Built>)
  {
    a.Ok? == b.Ok? && (a.Raise? ==> a.error == b.error)
    && (a.Ok? ==> a.value.st == b.value.st && a.value.last == b.value.last)
  }

  /** The scan from this pool, cursor and count reaches the given end. */
  ghost predicate ScanReaches(pool: seq<Block>, cursor: nat, attempts: nat, smallest: int, goal: Scan)
  {
    |pool| == Capacity && cursor < Capacity && attempts <= Mna && SomeUnlocked(pool)
    && ScanF(pool, cursor, attempts, smallest) == goal
  }

  /** One turn of the scan loop: an acceptable unlocked slot is the end, any
      other unlocked slot has its count reset and is counted, a locked slot
      is stepped over, one step closer to the first unlocked slot. */
  lemma ScanStep(pool: seq<Block>, cursor: nat, attempts: nat, smallest: int, goal: Scan)
    requires ScanReaches(pool, cursor, attempts, smallest, goal) && attempts < Mna
    ensures !pool[cursor].dut.locked && Acceptable(pool[cursor]) ==> goal == Scan(pool, cursor, attempts, smallest)
    ensures !pool[cursor].dut.locked && !Acceptable(pool[cursor]) ==>
      ScanReaches(ResetRefs(pool, cursor), Next(cursor), attempts + 1,
                  if pool[cursor].dut.refs < smallest then cursor else smallest, goal)
    ensures pool[cursor].dut.locked ==>
      && ScanReaches(pool, Next(cursor), attempts, smallest, goal)
      && (FirstUnlocked(pool, 0) - Next(cursor)) % Capacity < (FirstUnlocked(pool, 0) - cursor) % Capacity
  {
    if pool[cursor].dut.locked {
      CursorApproaches(pool, cursor);
    } else if !Acceptable(pool[cursor]) {
      ScanCounts(pool, cursor, attempts, smallest);
    }
  }

  /** The build from this state and level reaches the given end. */
  ghost predicate Reaches(st: State, addr: nat, level: int, last: int, goal: Outcome<Built>)
  {
    Wf(st) && 0 <= st.cursor && addr < AddressSpace && 1 <= level
    && SameEnd(BuildF(st, addr, level, last), goal)
  }

  /** One turn of the build loop, against the outcome the whole loop must
      reach: a level that raises ends the build with its exception, one that
      returns leaves the rest of the build to reach the same end. */
  lemma BuildStep(st: State, addr: nat, level: int, last: int, goal: Outcome<Built>)
    requires Reaches(st, addr, level, last, goal) && level <= NumBth
    ensures var l := LevelF(st, addr, level, last);
      && (l.Raise? ==> goal.Raise? && goal.error == l.error)
      && (l.Ok? ==> Reaches(l.value.0, addr, level + 1, l.value.1, goal))
  {
  }

  class Cache {
    /** `cache_L0T`, the top table. */
    const top: array<BthEntry>
    /** `cache_DBA`, the block pool. */
    const pool: array<Block>
    /** `cache_TLB`: its keys in insertion order and its mapping. */
    var tlbOrder: seq<int>
    var tlb: map<int, int>
    /** `VBIR`, the victim cursor. */
    var vbir: int

    /** The cache as a state value. */
    function View(): State
      reads this, top, pool
    {
      State(top[..], pool[..], FastTable(tlbOrder, tlb), vbir)
    }

    ghost predicate Valid()
      reads this, top, pool
    {
      top.Length == TopSize && pool.Length == Capacity && Invariant(View())
    }

    constructor ()
      ensures Valid() && View() == InitialState()
    {
      top := new BthEntry[TopSize](_ => FreshEntry);
      pool := new Block[Capacity](_ => EmptyBlock);
      tlbOrder := [];
      tlb := map[];
      vbir := 0;
      new;
      assert top[..] == seq(TopSize, _ => FreshEntry);
      assert pool[..] == seq(Capacity, _ => EmptyBlock);
    }

    /** `CacheSearch(block_addr)`. */
    method Search(addr: nat) returns (r: Outcome<SearchHit>)
      requires top.Length == TopSize && pool.Length == Capacity
      modifies pool
      ensures var s := SearchF(old(View()), addr);
        && r.Ok? == s.Ok? && (r.Raise? ==> r.error == s.error)
        && (r.Ok? ==> r.value == s.value.0 && View() == old(View()).(pool := s.value.1))
    {
      if addr / L0tOffset >= top.Length {
        return Raise(IndexError);
      }
      var e := top[addr / L0tOffset];
      if !e.valid {
        return Ok(SearchHit(false, -1));
      }
      var index := e.index;
      var offset := Fanout;
      var i := 1;
      while i < NumBth
        invariant 1 <= i <= NumBth && offset == Power(Fanout, i)
        invariant Walk(old(pool[..]), addr, e.index, 1) == Walk(pool[..], addr, index, i)
      {
        if !InBounds(index, pool.Length) {
          return Raise(IndexError);
        }
        var entries := pool[PyIndex(index, pool.Length)].data;
        var idx := (addr / (L0tOffset / offset)) % Fanout;
        assert idx == Selector(addr, i + 1);
        if idx >= |entries| {
          return Raise(IndexError);
        }
        if !entries[idx].Entry? {
          return Raise(AttributeError);
        }
        if !entries[idx].entry.valid {
          return Ok(SearchHit(false, index));
        }
        index := entries[idx].entry.index;
        if !InBounds(index, pool.Length) {
          return Raise(IndexError);
        }
        var k := PyIndex(index, pool.Length);
        ghost var before := pool[..];
        if pool[k].dut.refs < RefLimit {
          pool[k] := pool[k].(dut := pool[k].dut.(refs := pool[k].dut.refs + 1));
        }
        assert pool[..] == BumpAt(before, index);
        offset := offset * Fanout;
        i := i + 1;
      }
      if !InBounds(index, pool.Length) {
        return Raise(IndexError);
      }
      var b := pool[PyIndex(index, pool.Length)];
      if b.dut.level != NumBth || !b.dut.valid || b.tt.tag != addr / BlockSize {
        return Ok(SearchHit(false, index));
      }
      return Ok(SearchHit(true, index));
    }

    /** `if len(cache_TLB) > TLB_size: pop the first key`, then
        `cache_TLB[key] = index`. */
    method TlbPut(key: int, index: int)
      requires TableWf(FastTable(tlbOrder, tlb))
      modifies this
      ensures FastTable(tlbOrder, tlb) == FastPath.Add(old(FastTable(tlbOrder, tlb)), key, index)
      ensures vbir == old(vbir)
    {
      TableLength(FastTable(tlbOrder, tlb));
      if |tlb| > TlbSize {
        var it := tlbOrder[0];
        tlbOrder := tlbOrder[1..];
        tlb := tlb - {it};
      }
      if key !in tlb {
        tlbOrder := tlbOrder + [key];
      }
      tlb := tlb[key := index];
    }

    /** `accessFunctional(block_addr, data, isWrite)`. */
    method Access(addr: nat, data: Cell, isWrite: bool) returns (r: Outcome<(bool, Cell)>)
      requires Valid()
      modifies this, pool
      ensures var s := AccessF(old(View()), addr, data, isWrite);
        && r.Ok? == s.Ok? && (r.Raise? ==> r.error == s.error)
        && (r.Ok? ==> r.value == (s.value.hit, s.value.data) && View() == s.value.st && Valid())
    {
      ghost var st0 := View();
      var h :- Search(addr);
      SearchKeepsInvariant(st0, addr);
      var key := addr / BlockSize;
      var k: int;
      if key in tlb {
        k := tlb[key];
      } else if h.found {
        TlbPut(key, h.index);
        k := h.index;
      } else {
        AccessInvariant(st0, addr, data, isWrite);
        return Ok((false, data));
      }
      if !InBounds(k, pool.Length) {
        return Raise(IndexError);
      }
      var i := PyIndex(k, pool.Length);
      var off := addr % BlockSize;
      if off >= |pool[i].data| {
        return Raise(IndexError);
      }
      if isWrite {
        pool[i] := pool[i].(data := pool[i].data[off := data]);
        r := Ok((true, data));
      } else {
        r := Ok((true, pool[i].data[off]));
      }
      AccessInvariant(st0, addr, data, isWrite);
    }

    /** The victim scan (test_base.py:158-179). */
    method SelectVictim()
      requires pool.Length == Capacity && 0 <= vbir < Capacity && SomeUnlocked(pool[..])
      modifies this, pool
      ensures var scan := ScanF(old(pool[..]), old(vbir), 0, -1);
        pool[..] == scan.pool && vbir == Victim(scan)
      ensures tlbOrder == old(tlbOrder) && tlb == old(tlb)
    {
      ghost var goal := ScanF(pool[..], vbir, 0, -1);
      var i := 0;
      var smallest := -1;
      while i < Mna
        invariant 0 <= vbir && ScanReaches(pool[..], vbir, i, smallest, goal)
        invariant tlbOrder == old(tlbOrder) && tlb == old(tlb)
        decreases Mna - i, (FirstUnlocked(pool[..], 0) - vbir) % Capacity
      {
        var b := pool[vbir];
        ghost var c := vbir;
        ScanStep(pool[..], vbir, i, smallest, goal);
        if !b.dut.locked {
          if !b.dut.valid || !b.dut.parentValid || b.dut.refs == 0 {
            break;
          }
          ghost var before := pool[..];
          if b.dut.refs < smallest {
            smallest := vbir;
          }
          pool[vbir] := b.(dut := b.dut.(refs := 0));
          assert pool[..] == ResetRefs(before, c);
          i := i + 1;
        }
        vbir := vbir + 1;
        if vbir >= Capacity {
          vbir := 0;
        }
        assert vbir == Next(c);
      }
      if i == Mna {
        vbir := smallest;
      }
    }

    /** Point the parent entry at the victim (test_base.py:181-188). */
    method Link(addr: nat, level: int, last: int) returns (r: Outcome<()>)
      requires top.Length == TopSize && pool.Length == Capacity && Wf(View())
      requires addr < AddressSpace && 1 <= level <= NumBth
      modifies top, pool
      ensures var s := LinkF(old(View()), addr, level, last);
        && r.Ok? == s.Ok? && (r.Raise? ==> r.error == s.error)
        && (r.Ok? ==> View() == s.value)
    {
      if level == 1 {
        top[addr / L0tOffset] := BthEntry(true, vbir);
        return Ok(());
      }
      if !InBounds(last, pool.Length) {
        return Raise(IndexError);
      }
      var k := PyIndex(last, pool.Length);
      var p := Pow(Fanout, level - 1);
      var sel := (addr / (L0tOffset / p)) % Fanout;
      assert sel == Selector(addr, level);
      var d := pool[k].data;
      if sel >= |d| {
        return Raise(IndexError);
      }
      if !d[sel].Entry? {
        return Raise(AttributeError);
      }
      pool[k] := pool[k].(data := d[sel := Entry(BthEntry(true, vbir))]);
      return Ok(());
    }

    /** Invalidate the entry pointing to the victim (test_base.py:196-204). */
    method Unlink() returns (r: Outcome<()>)
      requires top.Length == TopSize && pool.Length == Capacity && Wf(View())
      modifies top, pool
      ensures var s := UnlinkF(old(View()));
        && r.Ok? == s.Ok? && (r.Raise? ==> r.error == s.error)
        && (r.Ok? ==> View() == s.value)
    {
      var b := pool[PyIndex(vbir, pool.Length)];
      if b.dut.level == 1 {
        if !InBounds(b.tt.parent, top.Length) {
          return Raise(IndexError);
        }
        var t := PyIndex(b.tt.parent, top.Length);
        top[t] := top[t].(valid := false);
        return Ok(());
      }
      if !InBounds(b.tt.parent, pool.Length) {
        return Raise(IndexError);
      }
      var p := PyIndex(b.tt.parent, pool.Length);
      var d := pool[p].data;
      for i := 0 to Fanout
        invariant ClearFirstMatch(d, vbir, 0) == ClearFirstMatch(d, vbir, i)
        invariant pool[..] == old(pool[..])
      {
        if i >= |d| {
          return Raise(IndexError);
        }
        if !d[i].Entry? {
          return Raise(AttributeError);
        }
        if d[i].entry.index == vbir {
          pool[p] := pool[p].(data := d[i := Entry(d[i].entry.(valid := false))]);
          return Ok(());
        }
      }
      return Ok(());
    }

    /** Make the victim's children orphans (test_base.py:214-218). */
    method OrphanChildren() returns (r: Outcome<()>)
      requires pool.Length == Capacity && InBounds(vbir, Capacity)
      modifies pool
      ensures var s := OrphanF(old(pool[..]), PyIndex(old(vbir), Capacity), 0);
        && r.Ok? == s.Ok? && (r.Raise? ==> r.error == s.error)
        && (r.Ok? ==> pool[..] == s.value)
    {
      var v := PyIndex(vbir, pool.Length);
      for i := 0 to Fanout
        invariant OrphanF(old(pool[..]), v, 0) == OrphanF(pool[..], v, i)
      {
        var d := pool[v].data;
        if i >= |d| {
          return Raise(IndexError);
        }
        if !d[i].Entry? {
          return Raise(AttributeError);
        }
        if d[i].entry.valid {
          var c := d[i].entry.index;
          if !InBounds(c, pool.Length) {
            return Raise(IndexError);
          }
          var k := PyIndex(c, pool.Length);
          pool[k] := pool[k].(dut := pool[k].dut.(parentValid := false));
        }
      }
      return Ok(());
    }

    /** Evict whatever the victim slot held (test_base.py:193-233). */
    method Evict(addr: nat) returns (r: Outcome<()>)
      requires top.Length == TopSize && pool.Length == Capacity && Wf(View())
      modifies this, top, pool
      ensures var s := EvictF(old(View()), addr);
        && r.Ok? == s.Ok? && (r.Raise? ==> r.error == s.error)
        && (r.Ok? ==> View() == s.value)
    {
      var v := PyIndex(vbir, pool.Length);
      if !(pool[v].dut.valid && pool[v].dut.level > 0) {
        return Ok(());
      }
      if pool[v].dut.parentValid {
        var u := Unlink();
        if u.Raise? {
          return Raise(u.error);
        }
      }
      if pool[v].dut.level == NumBth {
        var key := addr / BlockSize;
        if key in tlb {
          tlb := tlb - {key};
          tlbOrder := FastPath.Without(tlbOrder, key);
        }
        pool[v] := pool[v].(tt := pool[v].tt.(tag := 0));
      }
      if pool[v].dut.level < NumBth {
        var o := OrphanChildren();
        if o.Raise? {
          return Raise(o.error);
        }
      }
      return Ok(());
    }

    /** Install the new block in the victim slot (test_base.py:236-248). */
    method Install(addr: nat, level: int, last: int)
      requires top.Length == TopSize && pool.Length == Capacity && Wf(View())
      requires addr < AddressSpace && 1 <= level <= NumBth
      modifies pool
      ensures View() == InstallF(old(View()), addr, level, last)
    {
      var v := PyIndex(vbir, pool.Length);
      var payload: seq<Cell>;
      if level == NumBth {
        payload := seq(BlockSize, _ => Word(0));
      } else {
        payload := seq(Fanout, _ => Entry(FreshEntry));
      }
      var b := pool[v];
      var parent := if level == 1 then addr / L0tOffset else last;
      pool[v] := Block(b.dut.(valid := true, parentValid := true, level := level, refs := 1), b.tt.(parent := parent), payload);
    }

    /** One turn of the build loop (test_base.py:157-253); returns the victim. */
    method Level(addr: nat, level: int, last: int) returns (r: Outcome<int>)
      requires top.Length == TopSize && pool.Length == Capacity && Wf(View()) && 0 <= vbir
      requires addr < AddressSpace && 1 <= level <= NumBth
      modifies this, top, pool
      ensures var s := LevelF(old(View()), addr, level, last);
        && r.Ok? == s.Ok? && (r.Raise? ==> r.error == s.error)
        && (r.Ok? ==> r.value == s.value.1 && View() == s.value.0)
    {
      ghost var st0 := View();
      assert !pool[0].dut.locked;
      SelectVictim();
      ScanResetsOnly(st0.pool, st0.cursor, 0, -1);
      var victim := vbir;
      var x :- Link(addr, level, last);
      var y :- Evict(addr);
      Install(addr, level, last);
      vbir := vbir + 1;
      if vbir >= Capacity {
        vbir := 0;
      }
      assert vbir == Next(victim);
      return Ok(victim);
    }

    /** The build loop `while (current_level <= num_BTH)`; returns `last_BTH`. */
    method Build(addr: nat, level0: int, last0: int) returns (r: Outcome<int>)
      requires top.Length == TopSize && pool.Length == Capacity && Wf(View()) && 0 <= vbir
      requires addr < AddressSpace && 1 <= level0
      modifies this, top, pool
      ensures var s := BuildF(old(View()), addr, level0, last0);
        && r.Ok? == s.Ok? && (r.Raise? ==> r.error == s.error)
        && (r.Ok? ==> r.value == s.value.last && View() == s.value.st)
    {
      ghost var goal := BuildF(View(), addr, level0, last0);
      var level := level0;
      var last := last0;
      while level <= NumBth
        invariant Reaches(View(), addr, level, last, goal) && 0 <= vbir
        decreases NumBth + 1 - level
      {
        BuildStep(View(), addr, level, last, goal);
        var v :- Level(addr, level, last);
        last := v;
        level := level + 1;
      }
      return Ok(last);
    }

    /** The start of `insert` after its asserts (test_base.py:145-155);
        returns the first level to build. */
    method Start(addr: nat, anchor: int) returns (r: Outcome<int>)
      requires top.Length == TopSize && pool.Length == Capacity && Wf(View())
      requires addr < AddressSpace
      modifies pool
      ensures var s := StartF(old(View()), addr, anchor);
        && r.Ok? == s.Ok? && (r.Raise? ==> r.error == s.error)
        && (r.Ok? ==> r.value == s.value.1 && View() == s.value.0)
    {
      if anchor == -1 {
        var e := top[addr / L0tOffset];
        if e.valid {
          if !InBounds(e.index, pool.Length) {
            return Raise(IndexError);
          }
          var k := PyIndex(e.index, pool.Length);
          pool[k] := pool[k].(dut := pool[k].dut.(parentValid := false));
        }
        return Ok(1);
      }
      if !InBounds(anchor, pool.Length) {
        return Raise(IndexError);
      }
      return Ok(pool[PyIndex(anchor, pool.Length)].dut.level + 1);
    }

    /** The end of `insert` (test_base.py:261-271). */
    method Finish(addr: nat, data: Cell, last: int) returns (r: Outcome<()>)
      requires top.Length == TopSize && pool.Length == Capacity && Wf(View()) && 0 <= vbir
      modifies this, pool
      ensures var s := FinishF(old(View()), addr, data, last);
        && r.Ok? == s.Ok? && (r.Raise? ==> r.error == s.error)
        && (r.Ok? ==> View() == s.value)
    {
      if !InBounds(last, pool.Length) {
        return Raise(IndexError);
      }
      var k := PyIndex(last, pool.Length);
      pool[k] := pool[k].(tt := pool[k].tt.(tag := addr / BlockSize));
      var off := addr % BlockSize;
      if off >= |pool[k].data| {
        return Raise(IndexError);
      }
      pool[k] := pool[k].(data := pool[k].data[off := data]);
      TlbPut(addr / BlockSize, last);
      return Ok(());
    }

    /** `insert(address, data)`. */
    method Insert(addr: nat, data: Cell) returns (r: Outcome<()>)
      requires Valid()
      modifies this, top, pool
      ensures var s := InsertF(old(View()), addr, data);
        && r.Ok? == s.Ok? && (r.Raise? ==> r.error == s.error)
        && (r.Ok? ==> View() == s.value.st && Valid())
    {
      ghost var st0 := View();
      var h :- Search(addr);
      SearchKeepsInvariant(st0, addr);
      if h.found {
        return Raise(AssertionError);
      }
      if addr / BlockSize in tlb {
        return Raise(AssertionError);
      }
      // A search that returns names a real slot, so the start cannot raise.
      var started := Start(addr, h.index);
      assert started.Ok?;
      var level := started.value;
      var last :- Build(addr, level, h.index);
      var u :- Finish(addr, data, last);
      InsertInvariant(st0, addr, data);
      return Ok(());
    }
  }
}
