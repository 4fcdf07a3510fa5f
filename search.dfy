/** `CacheSearch` (test_base.py:54-79): the walk from the top table through
    the internal blocks to a leaf, bumping the reference count of every block
    it reaches through a child entry. Defined on a state value; the method in
    module TrieCache is proved to compute exactly this. */
module Search {
  import opened CacheTypes

  /** `L0T_offset / (blockSize/2)**(level-1)`: the address span covered by
      one child entry of a level-(level-1) block. */
  function Stride(level: int): (s: nat)
    requires 2 <= level <= NumBth
    ensures s > 0 && s % BlockSize == 0
  {
    assert Power(Fanout, 1) == 32;
    assert Power(Fanout, 2) == 1024;
    L0tOffset / Power(Fanout, level - 1)
  }

  /** The child entry a walk consults in a level-(level-1) block (test_base.py:66
      in the search, 187 in the insertion). `& (blockSize/2-1)` on a
      non-negative int is `% Fanout`, Fanout being a power of two. */
  function Selector(addr: nat, level: int): (s: nat)
    requires 2 <= level <= NumBth
    ensures s < Fanout
  {
    (addr / Stride(level)) % Fanout
  }

  /** The top-table slot of an address, `block_addr // L0T_offset`. */
  function TopSlot(addr: nat): (t: nat)
    requires addr < AddressSpace
    ensures t < TopSize
  {
    addr / L0tOffset
  }

  /** The block tag of an address, `block_addr // blockSize`. */
  function BlockTag(addr: nat): (r: nat)
  {
    addr / BlockSize
  }

  /** The outcome `(found, index)` of a search. */
  datatype SearchHit = SearchHit(found: bool, index: int)

  /** `if R < 32: R += 1` (test_base.py:69-70). */
  function Bump(b: Block): (r: Block)
  {
    if b.dut.refs < RefLimit then b.(dut := b.dut.(refs := b.dut.refs + 1)) else b
  }

  /** Bump the count of the slot a Python index denotes. */
  function BumpAt(pool: seq<Block>, i: int): (r: seq<Block>)
    requires InBounds(i, |pool|)
    ensures |r| == |pool|
  {
    var k := PyIndex(i, |pool|);
    pool[k := Bump(pool[k])]
  }

  /** The closing check (test_base.py:76-79): a hit needs a valid leaf whose tag is the address's. */
  function Validate(pool: seq<Block>, addr: nat, index: int): (r: Outcome<SearchHit>)
    ensures r.Ok? <==> InBounds(index, |pool|)
    ensures r.Raise? ==> r.error == IndexError
    ensures r.Ok? ==> r.value.index == index
    ensures r.Ok? ==>
      var b := pool[PyIndex(index, |pool|)];
      r.value.found <==> b.dut.level == NumBth && b.dut.valid && b.tt.tag == BlockTag(addr)
  {
    if !InBounds(index, |pool|) then Raise(IndexError)
    else
      var b := pool[PyIndex(index, |pool|)];
      Ok(SearchHit(b.dut.level == NumBth && b.dut.valid && b.tt.tag == BlockTag(addr), index))
  }

  /** Iteration `i` of the `for` loop of test_base.py:64-73 and everything
      after it, from the block `index` reached so far. */
  function Walk(pool: seq<Block>, addr: nat, index: int, i: int): (r: Outcome<(SearchHit, seq<Block>)>)
    requires 1 <= i <= NumBth
    ensures r.Ok? ==> |r.value.1| == |pool|
    ensures r.Ok? ==> InBounds(r.value.0.index, |pool|)
    decreases NumBth - i
  {
    if i == NumBth then
      var h :- Validate(pool, addr, index);
      Ok((h, pool))
    else if !InBounds(index, |pool|) then Raise(IndexError)
    else
      var entries := pool[PyIndex(index, |pool|)].data;
      var sel := Selector(addr, i + 1);
      if sel >= |entries| then Raise(IndexError)
      else if !entries[sel].Entry? then Raise(AttributeError)
      else if !entries[sel].entry.valid then Ok((SearchHit(false, index), pool))
      else
        var next := entries[sel].entry.index;
        if !InBounds(next, |pool|) then Raise(IndexError)
        else Walk(BumpAt(pool, next), addr, next, i + 1)
  }

  /** `CacheSearch(block_addr)`: the walk's outcome and the pool with its
      reference counts bumped. An address at or beyond 2^32 selects a slot
      past the end of the top table and raises. */
  function SearchF(st: State, addr: nat): (r: Outcome<(SearchHit, seq<Block>)>)
    requires |st.top| == TopSize
    ensures addr >= AddressSpace ==> r == Raise(IndexError)
    ensures r.Ok? ==> |r.value.1| == |st.pool|
  {
    if addr >= AddressSpace then Raise(IndexError)
    else
    var e := st.top[TopSlot(addr)];
    if !e.valid then Ok((SearchHit(false, -1), st.pool))
    else Walk(st.pool, addr, e.index, 1)
  }

  // ---------------------------------------------------------------------
  // A reference description: the path, then the counter updates
  // ---------------------------------------------------------------------

  /** Two pools that differ at most in reference counts. */
  ghost predicate SameButRefs(p: seq<Block>, q: seq<Block>)
  {
    |p| == |q| &&
    forall k :: 0 <= k < |p| ==> p[k].data == q[k].data && p[k].tt == q[k].tt && p[k].dut.(refs := 0) == q[k].dut.(refs := 0)
  }

  /** The stored indices of the blocks visited from `index` at depth `i` on,
      read from the pool without touching any counter: each step follows a
      valid child entry; the path stops at an invalid one or at depth NumBth. */
  function PathFrom(pool: seq<Block>, addr: nat, index: int, i: int): (r: Outcome<seq<int>>)
    requires 1 <= i <= NumBth
    ensures r.Ok? ==> 1 <= |r.value| <= NumBth + 1 - i && r.value[0] == index
    ensures r.Ok? ==> forall j :: 1 <= j < |r.value| ==> InBounds(r.value[j], |pool|)
    ensures r.Ok? && |r.value| > 1 ==> InBounds(index, |pool|)
    decreases NumBth - i
  {
    if i == NumBth then Ok([index])
    else if !InBounds(index, |pool|) then Raise(IndexError)
    else
      var entries := pool[PyIndex(index, |pool|)].data;
      var sel := Selector(addr, i + 1);
      if sel >= |entries| then Raise(IndexError)
      else if !entries[sel].Entry? then Raise(AttributeError)
      else if !entries[sel].entry.valid then Ok([index])
      else
        var next := entries[sel].entry.index;
        if !InBounds(next, |pool|) then Raise(IndexError)
        else
          var rest :- PathFrom(pool, addr, next, i + 1);
          Ok([index] + rest)
  }

  /** Bump the count of each slot of a path, in order. */
  function BumpAll(pool: seq<Block>, path: seq<int>): (r: seq<Block>)
    requires forall j :: 0 <= j < |path| ==> InBounds(path[j], |pool|)
    ensures |r| == |pool|
    decreases |path|
  {
    if path == [] then pool else BumpAll(BumpAt(pool, path[0]), path[1..])
  }

  /** The answer for a path started at depth i: a full-depth path is
      validated at its last block, a shorter one stopped at an invalid entry. */
  function Conclude(pool: seq<Block>, addr: nat, path: seq<int>, i: int): (r: Outcome<SearchHit>)
    requires path != []
  {
    if |path| == NumBth + 1 - i then Validate(pool, addr, path[|path| - 1])
    else Ok(SearchHit(false, path[|path| - 1]))
  }

  /** The walk as the reference description states it. */
  function WalkRef(pool: seq<Block>, addr: nat, index: int, i: int): (r: Outcome<(SearchHit, seq<Block>)>)
    requires 1 <= i <= NumBth
  {
    var path :- PathFrom(pool, addr, index, i);
    var h :- Conclude(pool, addr, path, i);
    Ok((h, BumpAll(pool, path[1..])))
  }

  // ---------------------------------------------------------------------
  // Lemmas
  // ---------------------------------------------------------------------

  lemma BumpAtSame(pool: seq<Block>, i: int)
    requires InBounds(i, |pool|)
    ensures SameButRefs(pool, BumpAt(pool, i))
  {
  }

  lemma SameButRefsTrans(p: seq<Block>, q: seq<Block>, r: seq<Block>)
    requires SameButRefs(p, q) && SameButRefs(q, r)
    ensures SameButRefs(p, r)
  {
  }

  /** Reference counts never steer the walk: pools that differ only in
      counts give the same path. */
  lemma {:induction false} PathIgnoresRefs(p: seq<Block>, q: seq<Block>, addr: nat, index: int, i: int)
    requires 1 <= i <= NumBth && SameButRefs(p, q)
    ensures PathFrom(p, addr, index, i) == PathFrom(q, addr, index, i)
    decreases NumBth - i
  {
    if i < NumBth && InBounds(index, |p|) {
      var entries := p[PyIndex(index, |p|)].data;
      var sel := Selector(addr, i + 1);
      if sel < |entries| && entries[sel].Entry? && entries[sel].entry.valid && InBounds(entries[sel].entry.index, |p|) {
        PathIgnoresRefs(p, q, addr, entries[sel].entry.index, i + 1);
      }
    }
  }

  /** Bumping a path's counters changes nothing but counters. */
  lemma {:induction false} BumpAllSame(pool: seq<Block>, path: seq<int>)
    requires forall j :: 0 <= j < |path| ==> InBounds(path[j], |pool|)
    ensures SameButRefs(pool, BumpAll(pool, path))
    decreases |path|
  {
    if path != [] {
      var p1 := BumpAt(pool, path[0]);
      BumpAtSame(pool, path[0]);
      BumpAllSame(p1, path[1..]);
      SameButRefsTrans(pool, p1, BumpAll(p1, path[1..]));
    }
  }

  /** The search's loop is the reference description: it follows the path
      that the unbumped pool determines, concludes from it, and bumps each
      block of the path past its first exactly once, in order. */
  lemma {:induction false} WalkIsPathThenBumps(pool: seq<Block>, addr: nat, index: int, i: int)
    requires 1 <= i <= NumBth
    ensures Walk(pool, addr, index, i) == WalkRef(pool, addr, index, i)
    decreases NumBth - i
  {
    if i < NumBth && InBounds(index, |pool|) {
      var entries := pool[PyIndex(index, |pool|)].data;
      var sel := Selector(addr, i + 1);
      if sel < |entries| && entries[sel].Entry? && entries[sel].entry.valid && InBounds(entries[sel].entry.index, |pool|) {
        var next := entries[sel].entry.index;
        var p1 := BumpAt(pool, next);
        WalkIsPathThenBumps(p1, addr, next, i + 1);
        BumpAtSame(pool, next);
        PathIgnoresRefs(pool, p1, addr, next, i + 1);
        var rest := PathFrom(pool, addr, next, i + 1);
        if rest.Ok? {
          var path := [index] + rest.value;
          assert PathFrom(pool, addr, index, i) == Ok(path);
          assert path[1..] == rest.value;
          assert rest.value[1..] == path[1..][1..];
          assert BumpAll(pool, path[1..]) == BumpAll(p1, rest.value[1..]);
          BumpAllSame(p1, rest.value[1..]);
          ValidateIgnoresRefs(p1, BumpAll(p1, rest.value[1..]), addr, rest.value[|rest.value| - 1]);
          ValidateIgnoresRefs(pool, p1, addr, rest.value[|rest.value| - 1]);
          assert path[|path| - 1] == rest.value[|rest.value| - 1];
        }
      }
    }
  }

  lemma ValidateIgnoresRefs(p: seq<Block>, q: seq<Block>, addr: nat, index: int)
    requires SameButRefs(p, q)
    ensures Validate(p, addr, index) == Validate(q, addr, index)
  {
    if InBounds(index, |p|) {
      var k := PyIndex(index, |p|);
      assert p[k].dut.(refs := 0) == q[k].dut.(refs := 0);
      assert p[k].dut.level == q[k].dut.level && p[k].dut.valid == q[k].dut.valid;
    }
  }

  /** Bumping keeps every count in 0..RefLimit and never lowers one. */
  lemma {:induction false} BumpAllBounded(pool: seq<Block>, path: seq<int>)
    requires forall j :: 0 <= j < |path| ==> InBounds(path[j], |pool|)
    ensures RefsBounded(pool) ==> RefsBounded(BumpAll(pool, path))
    ensures forall k :: 0 <= k < |pool| ==> pool[k].dut.refs <= BumpAll(pool, path)[k].dut.refs
    decreases |path|
  {
    if path != [] {
      BumpAllBounded(BumpAt(pool, path[0]), path[1..]);
    }
  }

  /** An invalid top entry ends the search at once: `(False, -1)`, nothing changed. */
  lemma SearchTopInvalid(st: State, addr: nat)
    requires |st.top| == TopSize && addr < AddressSpace
    requires !st.top[TopSlot(addr)].valid
    ensures SearchF(st, addr) == Ok((SearchHit(false, -1), st.pool))
  {
  }

  /** A valid top entry starts the reference description at its stored index. */
  lemma SearchIsPathThenBumps(st: State, addr: nat)
    requires |st.top| == TopSize && addr < AddressSpace
    requires st.top[TopSlot(addr)].valid
    ensures SearchF(st, addr) == WalkRef(st.pool, addr, st.top[TopSlot(addr)].index, 1)
  {
    WalkIsPathThenBumps(st.pool, addr, st.top[TopSlot(addr)].index, 1);
  }

  /** A search changes reference counts only, keeps them in 0..RefLimit and never lowers one. */
  lemma SearchOnlyBumps(st: State, addr: nat)
    requires |st.top| == TopSize && addr < AddressSpace
    requires SearchF(st, addr).Ok?
    ensures var p := SearchF(st, addr).value.1;
      && SameButRefs(st.pool, p)
      && (RefsBounded(st.pool) ==> RefsBounded(p))
      && forall k :: 0 <= k < |st.pool| ==> st.pool[k].dut.refs <= p[k].dut.refs
  {
    var e := st.top[TopSlot(addr)];
    if e.valid {
      SearchIsPathThenBumps(st, addr);
      var path := PathFrom(st.pool, addr, e.index, 1).value;
      BumpAllSame(st.pool, path[1..]);
      BumpAllBounded(st.pool, path[1..]);
    }
  }

  /** A search keeps the shape of the state and the invariant. */
  lemma SearchKeepsInvariant(st: State, addr: nat)
    requires |st.top| == TopSize && addr < AddressSpace
    requires SearchF(st, addr).Ok?
    ensures var s := st.(pool := SearchF(st, addr).value.1);
      && (Wf(st) ==> Wf(s))
      && (Invariant(st) ==> Invariant(s))
  {
    var p := SearchF(st, addr).value.1;
    SearchOnlyBumps(st, addr);
    forall k | 0 <= k < |p| && SlotWf(st.pool[k]) ensures SlotWf(p[k]) {
      assert p[k].dut.(refs := 0) == st.pool[k].dut.(refs := 0);
    }
  }

  /** `(True, i)` only for a valid block at level NumBth whose tag is the
      address's block tag, read identically before and after the search. */
  lemma SearchHitSound(st: State, addr: nat)
    requires |st.top| == TopSize && addr < AddressSpace
    requires SearchF(st, addr).Ok? && SearchF(st, addr).value.0.found
    ensures var (h, p) := SearchF(st, addr).value;
      && InBounds(h.index, |st.pool|)
      && var b := st.pool[PyIndex(h.index, |st.pool|)];
      && b.dut.level == NumBth && b.dut.valid && b.tt.tag == BlockTag(addr)
      && p[PyIndex(h.index, |st.pool|)].dut.(refs := 0) == b.dut.(refs := 0)
      && p[PyIndex(h.index, |st.pool|)].tt == b.tt
  {
    var e := st.top[TopSlot(addr)];
    SearchIsPathThenBumps(st, addr);
    SearchOnlyBumps(st, addr);
  }

  /** `(False, i)` from a valid top entry: i is the last block of the path.
      Either the path reached depth NumBth and that block failed the closing
      check, or the path stopped early because the child entry that block
      holds for the address is invalid. */
  lemma SearchMissDeepest(st: State, addr: nat)
    requires |st.top| == TopSize && addr < AddressSpace
    requires st.top[TopSlot(addr)].valid
    requires SearchF(st, addr).Ok? && !SearchF(st, addr).value.0.found
    ensures var path := PathFrom(st.pool, addr, st.top[TopSlot(addr)].index, 1);
      && path.Ok?
      && var last := path.value[|path.value| - 1];
      && SearchF(st, addr).value.0.index == last
      && InBounds(last, |st.pool|)
      && var b := st.pool[PyIndex(last, |st.pool|)];
      && (|path.value| == NumBth ==> !(b.dut.level == NumBth && b.dut.valid && b.tt.tag == BlockTag(addr)))
      && (|path.value| < NumBth ==>
            var sel := Selector(addr, |path.value| + 1);
            sel < |b.data| && b.data[sel].Entry? && !b.data[sel].entry.valid)
  {
    SearchIsPathThenBumps(st, addr);
    PathStopsAtInvalid(st.pool, addr, st.top[TopSlot(addr)].index, 1);
  }

  /** A path that stops before depth NumBth stops at a block whose child
      entry for the address is invalid. */
  lemma {:induction false} PathStopsAtInvalid(pool: seq<Block>, addr: nat, index: int, i: int)
    requires 1 <= i <= NumBth
    requires PathFrom(pool, addr, index, i).Ok?
    ensures var path := PathFrom(pool, addr, index, i).value;
      var last := path[|path| - 1];
      && (|path| < NumBth + 1 - i ==>
            InBounds(last, |pool|)
            && var b := pool[PyIndex(last, |pool|)];
            var sel := Selector(addr, i + |path|);
            sel < |b.data| && b.data[sel].Entry? && !b.data[sel].entry.valid)
    decreases NumBth - i
  {
    if i < NumBth {
      var entries := pool[PyIndex(index, |pool|)].data;
      var sel := Selector(addr, i + 1);
      if entries[sel].entry.valid {
        var next := entries[sel].entry.index;
        PathStopsAtInvalid(pool, addr, next, i + 1);
        var rest := PathFrom(pool, addr, next, i + 1).value;
        assert PathFrom(pool, addr, index, i).value == [index] + rest;
      }
    }
  }

  /** No stored pointer holds the index -1. */
  ghost predicate NoNegativeLinks(st: State)
  {
    (forall t :: 0 <= t < |st.top| ==> st.top[t].index >= 0)
    && forall k, j :: 0 <= k < |st.pool| && 0 <= j < |st.pool[k].data| && st.pool[k].data[j].Entry? ==>
         st.pool[k].data[j].entry.index >= 0
  }

  lemma {:induction false} PathNonNegative(st: State, addr: nat, index: int, i: int)
    requires 1 <= i <= NumBth && NoNegativeLinks(st) && index >= 0
    requires PathFrom(st.pool, addr, index, i).Ok?
    ensures forall j :: 0 <= j < |PathFrom(st.pool, addr, index, i).value| ==> PathFrom(st.pool, addr, index, i).value[j] >= 0
    decreases NumBth - i
  {
    if i < NumBth {
      var k := PyIndex(index, |st.pool|);
      var entries := st.pool[k].data;
      var sel := Selector(addr, i + 1);
      if entries[sel].entry.valid {
        var next := entries[sel].entry.index;
        assert st.pool[k].data[sel].Entry?;
        PathNonNegative(st, addr, next, i + 1);
      }
    }
  }

  /** While no stored pointer holds -1, the search answers `(False, -1)`
      exactly when the top entry is invalid. */
  lemma SearchSentinelExact(st: State, addr: nat)
    requires |st.top| == TopSize && addr < AddressSpace && NoNegativeLinks(st)
    requires SearchF(st, addr).Ok?
    ensures SearchF(st, addr).value.0 == SearchHit(false, -1) <==> !st.top[TopSlot(addr)].valid
  {
    var e := st.top[TopSlot(addr)];
    if e.valid {
      SearchIsPathThenBumps(st, addr);
      PathNonNegative(st, addr, e.index, 1);
    }
  }

  /** A valid top entry can store -1: that is what a level-1 victim chosen
      by the fallback of the victim scan leaves there. Its block is the last
      pool slot; if the child entry that slot holds for the address is
      invalid, the search answers `(False, -1)` although the top entry is
      valid. */
  lemma SearchSentinelCollision()
    ensures var addr := 0;
      var st := State(seq(TopSize, t => BthEntry(true, -1)), seq(Capacity, k => Block(EmptyBlock.dut, EmptyBlock.tt, seq(Fanout, j => Entry(FreshEntry)))), FastTable([], map[]), 0);
      && Wf(st)
      && st.top[TopSlot(addr)].valid
      && SearchF(st, addr) == Ok((SearchHit(false, -1), st.pool))
  {
  }
}
