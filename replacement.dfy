/** One level of the build loop of `insert` (test_base.py:157-254): the
    bounded CLOCK scan that picks a victim slot, the parent link written to
    it, the eviction of whatever the victim held and the installation of the
    new block. Every step is a function of the whole state; the methods of
    module TrieCache are proved to compute exactly these. */
module Replacement {
  import opened CacheTypes
  import FastPath
  import opened Search

  /** `VBIR += 1; if VBIR >= capacity: VBIR = 0`. */
  function Next(v: int): (n: nat)
    requires -1 <= v < Capacity
    ensures n < Capacity
    ensures n == (v + 1) % Capacity
  {
    if v + 1 >= Capacity then 0 else v + 1
  }

  // ---------------------------------------------------------------------
  // The victim scan (test_base.py:158-179)
  // ---------------------------------------------------------------------

  /** A slot the scan takes at once: invalid, orphaned, or not referenced
      since the scan last passed it. */
  predicate Acceptable(b: Block)
  {
    !b.dut.valid || !b.dut.parentValid || b.dut.refs == 0
  }

  /** No slot is locked: nothing in the source ever sets a lock bit. */
  ghost predicate NoneLocked(pool: seq<Block>)
  {
    forall k :: 0 <= k < |pool| ==> !pool[k].dut.locked
  }

  /** The scan terminates only if some slot is unlocked. */
  predicate SomeUnlocked(pool: seq<Block>)
  {
    exists k :: 0 <= k < |pool| && !pool[k].dut.locked
  }

  /** The first unlocked slot at or after k. */
  function FirstUnlocked(pool: seq<Block>, k: nat): (w: nat)
    requires exists j :: k <= j < |pool| && !pool[j].dut.locked
    ensures k <= w < |pool| && !pool[w].dut.locked
    ensures forall j :: k <= j < w ==> pool[j].dut.locked
    decreases |pool| - k
  {
    if !pool[k].dut.locked then k else FirstUnlocked(pool, k + 1)
  }

  /** Stepping past a locked slot brings the cursor one step closer, going
      round the pool, to the first unlocked slot. */
  lemma CursorApproaches(pool: seq<Block>, cursor: nat)
    requires |pool| == Capacity && cursor < Capacity && SomeUnlocked(pool)
    requires pool[cursor].dut.locked
    ensures (FirstUnlocked(pool, 0) - Next(cursor)) % Capacity < (FirstUnlocked(pool, 0) - cursor) % Capacity
  {
    var w := FirstUnlocked(pool, 0);
    assert w != cursor;
    if cursor < w {
      assert (w - cursor) % Capacity == w - cursor;
      assert (w - Next(cursor)) % Capacity == w - cursor - 1;
    } else if cursor + 1 < Capacity {
      assert (w - cursor) % Capacity == w - cursor + Capacity;
      assert (w - Next(cursor)) % Capacity == w - cursor - 1 + Capacity;
    } else {
      assert (w - cursor) % Capacity == w + 1;
      assert (w - Next(cursor)) % Capacity == w;
    }
  }

  /** The scan's variables: the pool (whose counters it resets), `VBIR`,
      the attempt counter `i` and `smallest_r_idx`. */
  datatype Scan = Scan(pool: seq<Block>, cursor: nat, attempts: nat, smallest: int)

  /** Reset the reference count of one slot. */
  function ResetRefs(pool: seq<Block>, k: nat): (r: seq<Block>)
    requires k < |pool|
    ensures |r| == |pool|
  {
    pool[k := pool[k].(dut := pool[k].dut.(refs := 0))]
  }

  /** q is p with some reference counts reset to 0 and nothing else changed. */
  ghost predicate ResetsOnly(p: seq<Block>, q: seq<Block>)
  {
    SameButRefs(p, q) && forall k :: 0 <= k < |p| ==> q[k].dut.refs == p[k].dut.refs || q[k].dut.refs == 0
  }

  lemma ResetsOnlyStep(pool: seq<Block>, c: nat, q: seq<Block>)
    requires c < |pool| && ResetsOnly(ResetRefs(pool, c), q)
    ensures ResetsOnly(pool, q)
  {
    var p' := ResetRefs(pool, c);
    forall k | 0 <= k < |pool|
      ensures q[k].data == pool[k].data && q[k].tt == pool[k].tt && q[k].dut.(refs := 0) == pool[k].dut.(refs := 0)
      ensures q[k].dut.refs == pool[k].dut.refs || q[k].dut.refs == 0
    {
      assert q[k].data == p'[k].data && q[k].tt == p'[k].tt && q[k].dut.(refs := 0) == p'[k].dut.(refs := 0);
    }
  }

  /** The inner `while (i < MNA)` loop, from its current variables. A locked
      slot is skipped without counting; an unlocked acceptable slot ends
      the scan; any other unlocked slot has its count reset and is counted.
      `smallest_r_idx` is compared against the count, as written. */
  function ScanF(pool: seq<Block>, cursor: nat, attempts: nat, smallest: int): (r: Scan)
    requires |pool| == Capacity && cursor < Capacity && attempts <= Mna
    requires SomeUnlocked(pool)
    ensures |r.pool| == Capacity && r.cursor < Capacity && attempts <= r.attempts <= Mna
    ensures r.attempts < Mna ==> !r.pool[r.cursor].dut.locked && Acceptable(r.pool[r.cursor])
    ensures r.smallest == smallest || 0 <= r.smallest < Capacity
    decreases Mna - attempts, (FirstUnlocked(pool, 0) - cursor) % Capacity
  {
    if attempts == Mna then Scan(pool, cursor, attempts, smallest)
    else
      var b := pool[cursor];
      if !b.dut.locked then
        if Acceptable(b) then Scan(pool, cursor, attempts, smallest)
        else
          var pool' := ResetRefs(pool, cursor);
          assert !pool'[cursor].dut.locked;
          ScanF(pool', Next(cursor), attempts + 1, if b.dut.refs < smallest then cursor else smallest)
      else
        CursorApproaches(pool, cursor);
        ScanF(pool, Next(cursor), attempts, smallest)
  }

  /** The scan changes nothing but reference counts, and each count it
      changes it sets to 0, whether or not slots are locked. */
  lemma {:induction false} ScanResetsOnly(pool: seq<Block>, cursor: nat, attempts: nat, smallest: int)
    requires |pool| == Capacity && cursor < Capacity && attempts <= Mna
    requires SomeUnlocked(pool)
    ensures ResetsOnly(pool, ScanF(pool, cursor, attempts, smallest).pool)
    decreases Mna - attempts, (FirstUnlocked(pool, 0) - cursor) % Capacity
  {
    if attempts < Mna {
      var b := pool[cursor];
      if !b.dut.locked {
        if !Acceptable(b) {
          ScanCounts(pool, cursor, attempts, smallest);
          var s' := if b.dut.refs < smallest then cursor else smallest;
          ScanResetsOnly(ResetRefs(pool, cursor), Next(cursor), attempts + 1, s');
          ResetsOnlyStep(pool, cursor, ScanF(pool, cursor, attempts, smallest).pool);
        }
      } else {
        CursorApproaches(pool, cursor);
        ScanResetsOnly(pool, Next(cursor), attempts, smallest);
      }
    }
  }

  /** `if (i == MNA): VBIR = smallest_r_idx`. */
  function Victim(s: Scan): (r: int)
  {
    if s.attempts == Mna then s.smallest else s.cursor
  }

  /** The slot d steps after c, going round the pool. */
  function Ahead(c: nat, d: nat): (k: nat)
    requires c < Capacity && d < Capacity
    ensures k < Capacity && k == (c + d) % Capacity
  {
    if c + d < Capacity then c + d else c + d - Capacity
  }

  /** How many steps after c, going round the pool, slot k comes. */
  function Offset(c: nat, k: nat): (d: nat)
    requires c < Capacity && k < Capacity
    ensures d < Capacity && Ahead(c, d) == k
  {
    if c <= k then k - c else k + Capacity - c
  }

  lemma OffsetNext(c: nat, k: nat)
    requires c < Capacity && k < Capacity
    ensures Offset(c, c) == 0
    ensures Offset(Next(c), c) == Capacity - 1
    ensures k != c ==> Offset(c, k) > 0 && Offset(Next(c), k) == Offset(c, k) - 1
    ensures k + 1 < Capacity ==> Ahead(Next(c), k) == Ahead(c, k + 1)
    ensures 0 < k ==> Ahead(c, k) != c
  {
  }

  /** What a scan started at `cursor` with `attempts` already counted did to
      reach `r`, when it counted m more slots: the m slots from the cursor
      on, going round the pool, are unacceptable and end with count 0;
      every other slot keeps its count (ScanF changes nothing but counts);
      the scan stops m slots on, on an acceptable slot if its attempts did
      not run out. */
  ghost predicate ScanShape(pool: seq<Block>, cursor: nat, attempts: nat, r: Scan)
  {
    && |pool| == Capacity && |r.pool| == Capacity && cursor < Capacity && attempts <= r.attempts <= Mna
    && var m := r.attempts - attempts;
    && r.cursor == Ahead(cursor, m)
    && (r.attempts < Mna ==> Acceptable(pool[r.cursor]))
    && forall k :: 0 <= k < Capacity ==>
         && (Offset(cursor, k) < m ==> !Acceptable(pool[k]) && r.pool[k].dut.refs == 0)
         && (Offset(cursor, k) >= m ==> r.pool[k].dut == pool[k].dut)
  }

  /** A scan that counts the slot under the cursor and then has the shape
      above from the next slot has the shape above from this one. */
  lemma ScanShapeStep(pool: seq<Block>, cursor: nat, attempts: nat, r: Scan)
    requires |pool| == Capacity && cursor < Capacity && attempts < Mna && !Acceptable(pool[cursor])
    requires ScanShape(ResetRefs(pool, cursor), Next(cursor), attempts + 1, r)
    ensures ScanShape(pool, cursor, attempts, r)
  {
    var pool' := ResetRefs(pool, cursor);
    var m := r.attempts - attempts;
    OffsetNext(cursor, m - 1);
    OffsetNext(cursor, m);
    forall k | 0 <= k < Capacity
      ensures Offset(cursor, k) < m ==> !Acceptable(pool[k]) && r.pool[k].dut.refs == 0
      ensures Offset(cursor, k) >= m ==> r.pool[k].dut == pool[k].dut
    {
      OffsetNext(cursor, k);
      if k == cursor {
        assert Offset(Next(cursor), k) >= m - 1;
        assert r.pool[k].dut == pool'[k].dut;
      } else {
        assert pool'[k].dut == pool[k].dut;
      }
    }
  }

  /** With no slot locked, as in every reachable state, the scan is this:
      it examines the slots from the cursor on, wrapping at the end of the
      pool; the m slots it counts are exactly the unacceptable ones before
      the first acceptable slot, and each ends with count 0; it stops on
      that acceptable slot if it is among the next Mna - attempts,
      otherwise on the slot after the last one counted; no other slot
      changes. */
  lemma {:induction false} ScanReference(pool: seq<Block>, cursor: nat, attempts: nat, smallest: int)
    requires |pool| == Capacity && cursor < Capacity && attempts <= Mna
    requires SomeUnlocked(pool) && NoneLocked(pool)
    ensures ScanShape(pool, cursor, attempts, ScanF(pool, cursor, attempts, smallest))
    decreases Mna - attempts
  {
    if attempts < Mna && !Acceptable(pool[cursor]) {
      var pool' := ResetRefs(pool, cursor);
      var s' := if pool[cursor].dut.refs < smallest then cursor else smallest;
      ResetKeepsLocks(pool, cursor);
      ScanReference(pool', Next(cursor), attempts + 1, s');
      ScanCounts(pool, cursor, attempts, smallest);
      ScanShapeStep(pool, cursor, attempts, ScanF(pool', Next(cursor), attempts + 1, s'));
    } else {
      ScanShapeStop(pool, cursor, attempts, smallest);
    }
  }

  /** A scan that stops at once, out of attempts or on an acceptable
      unlocked slot, has the shape above with nothing counted. */
  lemma ScanShapeStop(pool: seq<Block>, cursor: nat, attempts: nat, smallest: int)
    requires |pool| == Capacity && cursor < Capacity && attempts <= Mna
    requires SomeUnlocked(pool) && !pool[cursor].dut.locked
    requires attempts == Mna || Acceptable(pool[cursor])
    ensures ScanShape(pool, cursor, attempts, ScanF(pool, cursor, attempts, smallest))
  {
    OffsetNext(cursor, 0);
  }

  /** An unlocked, unacceptable slot is counted and the scan goes on from the next one. */
  lemma ScanCounts(pool: seq<Block>, cursor: nat, attempts: nat, smallest: int)
    requires |pool| == Capacity && cursor < Capacity && attempts < Mna && SomeUnlocked(pool)
    requires !pool[cursor].dut.locked && !Acceptable(pool[cursor])
    ensures SomeUnlocked(ResetRefs(pool, cursor))
    ensures ScanF(pool, cursor, attempts, smallest)
         == ScanF(ResetRefs(pool, cursor), Next(cursor), attempts + 1, if pool[cursor].dut.refs < smallest then cursor else smallest)
  {
    assert !ResetRefs(pool, cursor)[cursor].dut.locked;
  }

  lemma ResetKeepsLocks(pool: seq<Block>, c: nat)
    requires c < |pool| && NoneLocked(pool)
    ensures NoneLocked(ResetRefs(pool, c)) && SomeUnlocked(ResetRefs(pool, c))
  {
    assert !ResetRefs(pool, c)[c].dut.locked;
  }

  /** Counts are never negative, and `smallest_r_idx` starts at -1, so the
      comparison `R < smallest_r_idx` never holds: the fallback victim is
      always -1, which Python takes as the last pool slot. */
  lemma {:induction false} ScanFallback(pool: seq<Block>, cursor: nat, attempts: nat)
    requires |pool| == Capacity && cursor < Capacity && attempts <= Mna
    requires SomeUnlocked(pool) && RefsBounded(pool)
    ensures ScanF(pool, cursor, attempts, -1).smallest == -1
    ensures RefsBounded(ScanF(pool, cursor, attempts, -1).pool)
    decreases Mna - attempts, (FirstUnlocked(pool, 0) - cursor) % Capacity
  {
    if attempts < Mna {
      var b := pool[cursor];
      if !b.dut.locked {
        if !Acceptable(b) {
          var pool' := ResetRefs(pool, cursor);
          assert !pool'[cursor].dut.locked;
          ScanFallback(pool', Next(cursor), attempts + 1);
        }
      } else {
        CursorApproaches(pool, cursor);
        ScanFallback(pool, Next(cursor), attempts);
      }
    }
  }

  /** The victim a whole scan chooses (test_base.py:178-179): the acceptable
      unlocked slot it stopped on when attempts remained, otherwise the
      fallback -1, the last pool slot. Either way a valid Python index. */
  lemma VictimChoice(pool: seq<Block>, cursor: nat)
    requires |pool| == Capacity && cursor < Capacity
    requires SomeUnlocked(pool) && RefsBounded(pool)
    ensures var s := ScanF(pool, cursor, 0, -1);
      && InBounds(Victim(s), Capacity)
      && (s.attempts < Mna ==> Victim(s) == s.cursor && !s.pool[s.cursor].dut.locked && Acceptable(s.pool[s.cursor]))
      && (s.attempts == Mna ==> Victim(s) == -1)
  {
    ScanFallback(pool, cursor, 0);
  }

  // ---------------------------------------------------------------------
  // Link, unlink, orphan, install (test_base.py:181-248)
  // ---------------------------------------------------------------------

  /** Make the level-`level` parent entry point to the victim `VBIR` and set
      it valid: the top entry at level 1, otherwise the entry of the block
      `last_BTH` at the selector the search uses at that level. */
  function LinkF(st: State, addr: nat, level: int, last: int): (r: Outcome<State>)
    requires Wf(st) && addr < AddressSpace && 1 <= level <= NumBth
    ensures r.Ok? ==> Wf(r.value) && r.value.cursor == st.cursor && r.value.tlb == st.tlb
    ensures r.Ok? ==> forall k :: 0 <= k < Capacity ==> r.value.pool[k].dut == st.pool[k].dut && r.value.pool[k].tt == st.pool[k].tt
    ensures r.Ok? && level == 1 ==> r.value.top[TopSlot(addr)] == BthEntry(true, st.cursor)
    ensures r.Ok? && level > 1 ==>
      (InBounds(last, Capacity)
       && var p := r.value.pool[PyIndex(last, Capacity)].data;
       Selector(addr, level) < |p| && p[Selector(addr, level)] == Entry(BthEntry(true, st.cursor)))
    // Nothing else changes: no other top entry, no other slot, no other cell of `last_BTH`.
    ensures r.Ok? && level == 1 ==>
      r.value.pool == st.pool && forall t :: 0 <= t < TopSize && t != TopSlot(addr) ==> r.value.top[t] == st.top[t]
    ensures r.Ok? && level > 1 ==>
      && r.value.top == st.top
      && (forall k :: 0 <= k < Capacity && k != PyIndex(last, Capacity) ==> r.value.pool[k] == st.pool[k])
      && var d := st.pool[PyIndex(last, Capacity)].data;
      var p := r.value.pool[PyIndex(last, Capacity)].data;
      |p| == |d| && forall j :: 0 <= j < |d| && j != Selector(addr, level) ==> p[j] == d[j]
    // The link fails only where Python raises.
    ensures level == 1 ==> r.Ok?
    ensures level > 1 ==>
      (r.Ok? <==> InBounds(last, Capacity) && Selector(addr, level) < |st.pool[PyIndex(last, Capacity)].data|
                  && st.pool[PyIndex(last, Capacity)].data[Selector(addr, level)].Entry?)
  {
    if level == 1 then Ok(st.(top := st.top[TopSlot(addr) := BthEntry(true, st.cursor)]))
    else if !InBounds(last, Capacity) then Raise(IndexError)
    else
      var k := PyIndex(last, Capacity);
      var b := st.pool[k];
      var sel := Selector(addr, level);
      if sel >= |b.data| then Raise(IndexError)
      else if !b.data[sel].Entry? then Raise(AttributeError)
      else Ok(st.(pool := st.pool[k := b.(data := b.data[sel := Entry(BthEntry(true, st.cursor))])]))
  }

  /** The `for i in range(blockSize//2)` scan of the parent's entries: the
      first entry, from position i on, whose stored index is the victim's
      loses its valid bit; `V` itself is not consulted. */
  function ClearFirstMatch(data: seq<Cell>, victim: int, i: nat): (r: Outcome<seq<Cell>>)
    requires i <= Fanout
    ensures r.Ok? ==> |r.value| == |data|
    ensures r.Ok? ==> forall n :: 0 <= n < |data| && (n < i || Fanout <= n) ==> r.value[n] == data[n]
    ensures r.Raise? ==> r.error == IndexError || r.error == AttributeError
    decreases Fanout - i
  {
    if i == Fanout then Ok(data)
    else if i >= |data| then Raise(IndexError)
    else if !data[i].Entry? then Raise(AttributeError)
    else if data[i].entry.index == victim then Ok(data[i := Entry(data[i].entry.(valid := false))])
    else ClearFirstMatch(data, victim, i + 1)
  }

  /** Entries i..j-1 are child entries none of which stores the index v. */
  ghost predicate NoMatchBetween(data: seq<Cell>, v: int, i: nat, j: nat)
  {
    (i < j ==> j <= |data|) && forall n :: i <= n < j ==> data[n].Entry? && data[n].entry.index != v
  }

  lemma NoMatchExtend(data: seq<Cell>, v: int, i: nat, j: nat)
    requires i < j && NoMatchBetween(data, v, i + 1, j)
    requires i < |data| && data[i].Entry? && data[i].entry.index != v
    ensures NoMatchBetween(data, v, i, j)
  {
  }

  /** The unlink scan, stated without recursion: if the first Fanout cells
      are all child entries, it succeeds; when it succeeds, either none of
      them stores the victim and nothing changes, or the first one that does
      is cleared, whatever its valid bit was, and nothing else changes. */
  lemma {:induction false} ClearFirstMatchReference(data: seq<Cell>, v: int, i: nat)
    requires i <= Fanout
    ensures (Fanout <= |data| && forall n :: i <= n < Fanout ==> data[n].Entry?) ==> ClearFirstMatch(data, v, i).Ok?
    ensures ClearFirstMatch(data, v, i).Ok? ==>
      || (NoMatchBetween(data, v, i, Fanout) && ClearFirstMatch(data, v, i).value == data)
      || exists j :: i <= j < Fanout && j < |data| && NoMatchBetween(data, v, i, j) && data[j].Entry? && data[j].entry.index == v
           && ClearFirstMatch(data, v, i).value == data[j := Entry(BthEntry(false, v))]
    decreases Fanout - i
  {
    if i < Fanout && i < |data| && data[i].Entry? && data[i].entry.index != v {
      ClearFirstMatchReference(data, v, i + 1);
      if ClearFirstMatch(data, v, i).Ok? {
        if NoMatchBetween(data, v, i + 1, Fanout) {
          NoMatchExtend(data, v, i, Fanout);
        } else {
          var j :| i + 1 <= j < Fanout && j < |data| && NoMatchBetween(data, v, i + 1, j) && data[j].Entry? && data[j].entry.index == v
           && ClearFirstMatch(data, v, i).value == data[j := Entry(BthEntry(false, v))];
          NoMatchExtend(data, v, i, j);
        }
      }
    } else if i < Fanout && i < |data| && data[i].Entry? {
      assert NoMatchBetween(data, v, i, i);
    }
  }

  /** Invalidate the entry that points to the victim (test_base.py:198-204):
      the top entry `PT` for a level-1 victim, otherwise the first entry of
      block `PT` that stores the victim's index. */
  function UnlinkF(st: State): (r: Outcome<State>)
    requires Wf(st)
    ensures r.Ok? ==> Wf(r.value) && r.value.cursor == st.cursor && r.value.tlb == st.tlb
    ensures r.Ok? ==> forall k :: 0 <= k < Capacity ==> r.value.pool[k].dut == st.pool[k].dut && r.value.pool[k].tt == st.pool[k].tt
    ensures var b := st.pool[PyIndex(st.cursor, Capacity)];
      b.dut.level == 1 ==>
        && (r.Ok? <==> InBounds(b.tt.parent, TopSize))
        && (r.Ok? ==> var t := PyIndex(b.tt.parent, TopSize);
              r.value == st.(top := st.top[t := st.top[t].(valid := false)]))
    ensures var b := st.pool[PyIndex(st.cursor, Capacity)];
      b.dut.level != 1 ==>
        && (r.Ok? <==> InBounds(b.tt.parent, Capacity)
                       && ClearFirstMatch(st.pool[PyIndex(b.tt.parent, Capacity)].data, st.cursor, 0).Ok?)
        && (r.Ok? ==> var p := PyIndex(b.tt.parent, Capacity);
              r.value == st.(pool := st.pool[p := st.pool[p].(data := ClearFirstMatch(st.pool[p].data, st.cursor, 0).value)]))
  {
    var b := st.pool[PyIndex(st.cursor, Capacity)];
    if b.dut.level == 1 then
      if !InBounds(b.tt.parent, TopSize) then Raise(IndexError)
      else
        var t := PyIndex(b.tt.parent, TopSize);
        Ok(st.(top := st.top[t := st.top[t].(valid := false)]))
    else if !InBounds(b.tt.parent, Capacity) then Raise(IndexError)
    else
      var p := PyIndex(b.tt.parent, Capacity);
      var d :- ClearFirstMatch(st.pool[p].data, st.cursor, 0);
      Ok(st.(pool := st.pool[p := st.pool[p].(data := d)]))
  }

  /** Unlinking a deeper victim, stated through the reference description
      of the scan: only block PT can change; either none of its first
      Fanout entries stores the victim's index and nothing changes, or the
      first one that does, and only it, loses its valid bit. */
  lemma UnlinkReference(st: State)
    requires Wf(st) && UnlinkF(st).Ok?
    requires st.pool[PyIndex(st.cursor, Capacity)].dut.level != 1
    ensures var b := st.pool[PyIndex(st.cursor, Capacity)];
      var r := UnlinkF(st).value;
      var p := PyIndex(b.tt.parent, Capacity);
      var d := st.pool[p].data;
      && r.top == st.top
      && (forall k :: 0 <= k < Capacity && k != p ==> r.pool[k] == st.pool[k])
      && r.pool[p].dut == st.pool[p].dut && r.pool[p].tt == st.pool[p].tt
      && (|| (NoMatchBetween(d, st.cursor, 0, Fanout) && r == st)
          || exists j :: 0 <= j < Fanout && j < |d| && NoMatchBetween(d, st.cursor, 0, j)
               && d[j].Entry? && d[j].entry.index == st.cursor
               && r.pool[p].data == d[j := Entry(BthEntry(false, st.cursor))])
  {
    var b := st.pool[PyIndex(st.cursor, Capacity)];
    var p := PyIndex(b.tt.parent, Capacity);
    ClearFirstMatchReference(st.pool[p].data, st.cursor, 0);
    if ClearFirstMatch(st.pool[p].data, st.cursor, 0).value == st.pool[p].data {
      assert st.pool[p := st.pool[p].(data := st.pool[p].data)] == st.pool;
    }
  }

  /** Clear the parent-valid bit of one slot. */
  function Orphan(pool: seq<Block>, k: nat): (r: seq<Block>)
    requires k < |pool|
    ensures |r| == |pool|
  {
    pool[k := pool[k].(dut := pool[k].dut.(parentValid := false))]
  }

  /** The `for i in range(blockSize//2)` loop of test_base.py:215-218: every
      valid child entry of block v, from position i on, makes its child an
      orphan. */
  function OrphanF(pool: seq<Block>, v: nat, i: nat): (r: Outcome<seq<Block>>)
    requires v < |pool| && i <= Fanout
    ensures r.Ok? ==> |r.value| == |pool|
    ensures r.Ok? ==> forall k :: 0 <= k < |pool| ==> r.value[k].data == pool[k].data && r.value[k].tt == pool[k].tt
    ensures r.Raise? ==> r.error == IndexError || r.error == AttributeError
    decreases Fanout - i
  {
    if i == Fanout then Ok(pool)
    else
      var d := pool[v].data;
      if i >= |d| then Raise(IndexError)
      else if !d[i].Entry? then Raise(AttributeError)
      else if !d[i].entry.valid then OrphanF(pool, v, i + 1)
      else if !InBounds(d[i].entry.index, |pool|) then Raise(IndexError)
      else OrphanF(Orphan(pool, PyIndex(d[i].entry.index, |pool|)), v, i + 1)
  }

  /** A block none of whose entries from position i on is valid orphans nothing. */
  lemma {:induction false} OrphanNoChildren(pool: seq<Block>, v: nat, i: nat)
    requires v < |pool| && i <= Fanout && Fanout <= |pool[v].data|
    requires forall n :: i <= n < Fanout ==> pool[v].data[n].Entry? && !pool[v].data[n].entry.valid
    ensures OrphanF(pool, v, i) == Ok(pool)
    decreases Fanout - i
  {
    if i < Fanout {
      OrphanNoChildren(pool, v, i + 1);
    }
  }

  /** Slot k is the child named by a valid entry at some position i..Fanout-1 of d. */
  ghost predicate ChildAt(d: seq<Cell>, n: nat, k: nat, i: nat)
  {
    exists j :: i <= j < Fanout && j < |d| && d[j].Entry? && d[j].entry.valid
      && InBounds(d[j].entry.index, n) && PyIndex(d[j].entry.index, n) == k
  }

  /** Lazy one-level orphaning: the loop changes only parent-valid bits, and
      clears exactly those of the slots that the victim's valid entries name;
      grandchildren and every other slot keep theirs. */
  lemma {:induction false} OrphanReference(pool: seq<Block>, v: nat, i: nat)
    requires v < |pool| && i <= Fanout
    requires OrphanF(pool, v, i).Ok?
    ensures var r := OrphanF(pool, v, i).value;
      forall k :: 0 <= k < |pool| ==>
        && r[k].data == pool[k].data && r[k].tt == pool[k].tt
        && r[k].dut.(parentValid := false) == pool[k].dut.(parentValid := false)
        && (r[k].dut.parentValid <==> pool[k].dut.parentValid && !ChildAt(pool[v].data, |pool|, k, i))
    decreases Fanout - i
  {
    if i < Fanout {
      var d := pool[v].data;
      if !d[i].entry.valid {
        OrphanReference(pool, v, i + 1);
        forall k | 0 <= k < |pool| ensures ChildAt(d, |pool|, k, i) <==> ChildAt(d, |pool|, k, i + 1) {
          if ChildAt(d, |pool|, k, i) {
            var j :| i <= j < Fanout && j < |d| && d[j].Entry? && d[j].entry.valid
              && InBounds(d[j].entry.index, |pool|) && PyIndex(d[j].entry.index, |pool|) == k;
            assert j != i;
          }
        }
      } else {
        var c := PyIndex(d[i].entry.index, |pool|);
        var pool' := Orphan(pool, c);
        assert pool'[v].data == d;
        OrphanReference(pool', v, i + 1);
        forall k | 0 <= k < |pool| ensures ChildAt(d, |pool|, k, i) <==> k == c || ChildAt(d, |pool|, k, i + 1) {
          if ChildAt(d, |pool|, k, i) && k != c {
            var j :| i <= j < Fanout && j < |d| && d[j].Entry? && d[j].entry.valid
              && InBounds(d[j].entry.index, |pool|) && PyIndex(d[j].entry.index, |pool|) == k;
            assert j != i;
          }
        }
      }
    }
  }

  /** test_base.py:195-218: a valid victim holding a trie level is unlinked
      from its parent if it still has one; a leaf victim loses its tag and
      the fast-path key of the address now being inserted; an internal
      victim orphans its children. The dirty branch only stands in for a
      write-back and changes nothing. */
  function EvictF(st: State, addr: nat): (r: Outcome<State>)
    requires Wf(st)
    ensures r.Ok? ==> Wf(r.value) && r.value.cursor == st.cursor
    ensures r.Ok? ==> r.value.tlb.entries == st.tlb.entries - (if st.pool[PyIndex(st.cursor, Capacity)].dut.valid && st.pool[PyIndex(st.cursor, Capacity)].dut.level == NumBth then {BlockTag(addr)} else {})
    ensures r.Ok? ==> |r.value.tlb.order| <= |st.tlb.order|
    ensures r.Ok? && BlockTag(addr) !in st.tlb.entries ==> r.value.tlb == st.tlb
    ensures r.Ok? ==> forall k :: 0 <= k < Capacity ==> r.value.pool[k].dut.refs == st.pool[k].dut.refs && r.value.pool[k].dut.level == st.pool[k].dut.level
    ensures r.Ok? && !st.pool[PyIndex(st.cursor, Capacity)].dut.parentValid ==>
      r.value.top == st.top && forall k :: 0 <= k < Capacity ==> r.value.pool[k].data == st.pool[k].data
    ensures r.Ok? && st.pool[PyIndex(st.cursor, Capacity)].dut.valid && st.pool[PyIndex(st.cursor, Capacity)].dut.level == NumBth ==>
      r.value.pool[PyIndex(st.cursor, Capacity)].tt.tag == 0
  {
    var v := PyIndex(st.cursor, Capacity);
    var b := st.pool[v];
    if !(b.dut.valid && b.dut.level > 0) then Ok(st)
    else
      var s1 :- if b.dut.parentValid then UnlinkF(st) else Ok(st);
      var b1 := s1.pool[v];
      var s2 :=
        if b1.dut.level == NumBth
        then s1.(tlb := FastPath.Remove(s1.tlb, BlockTag(addr)), pool := s1.pool[v := b1.(tt := b1.tt.(tag := 0))])
        else s1;
      if s2.pool[v].dut.level < NumBth then
        var p :- OrphanF(s2.pool, v, 0);
        OrphanReference(s2.pool, v, 0);
        Ok(s2.(pool := p))
      else Ok(s2)
  }

  /** Eviction as its three effects: a victim without live content is left
      alone; a live victim with a parent is unlinked as UnlinkF describes,
      and the unlinked state's top table and payloads are the result's; a
      leaf victim then loses its tag and nothing else in the pool changes;
      an internal victim then orphans exactly the slots its valid entries
      name, as OrphanReference describes, every other bit staying. */
  lemma EvictReference(st: State, addr: nat)
    requires Wf(st) && EvictF(st, addr).Ok?
    ensures var v := PyIndex(st.cursor, Capacity);
      var b := st.pool[v];
      var r := EvictF(st, addr).value;
      && (!(b.dut.valid && b.dut.level > 0) ==> r == st)
      && (b.dut.valid && b.dut.level > 0 ==>
            var s1 := if b.dut.parentValid then UnlinkF(st) else Ok(st);
            && s1.Ok?
            && r.top == s1.value.top
            && (forall k :: 0 <= k < Capacity ==> r.pool[k].data == s1.value.pool[k].data)
            && (b.dut.level == NumBth ==>
                  && r.tlb == FastPath.Remove(st.tlb, BlockTag(addr))
                  && r.pool[v].tt == b.tt.(tag := 0) && r.pool[v].dut == b.dut
                  && forall k :: 0 <= k < Capacity && k != v ==> r.pool[k].tt == st.pool[k].tt && r.pool[k].dut == st.pool[k].dut)
            && (b.dut.level < NumBth ==>
                  && r.tlb == st.tlb
                  && forall k :: 0 <= k < Capacity ==>
                       && r.pool[k].tt == st.pool[k].tt
                       && r.pool[k].dut.(parentValid := false) == st.pool[k].dut.(parentValid := false)
                       && (r.pool[k].dut.parentValid <==> st.pool[k].dut.parentValid && !ChildAt(s1.value.pool[v].data, Capacity, k, 0))))
  {
    var v := PyIndex(st.cursor, Capacity);
    var b := st.pool[v];
    if b.dut.valid && b.dut.level > 0 {
      var s1 := if b.dut.parentValid then UnlinkF(st).value else st;
      if b.dut.level < NumBth {
        OrphanReference(s1.pool, v, 0);
      }
    }
  }

  /** The payload of a freshly installed block: `blockSize` zeros at the
      leaf level, `blockSize/2` fresh child entries otherwise. */
  function FreshPayload(level: int): (d: seq<Cell>)
    ensures level == NumBth ==> |d| == BlockSize && forall j :: 0 <= j < |d| ==> d[j] == Word(0)
    ensures level != NumBth ==> |d| == Fanout && forall j :: 0 <= j < |d| ==> d[j] == Entry(BthEntry(false, 0))
  {
    if level == NumBth then seq(BlockSize, _ => Word(0)) else seq(Fanout, _ => Entry(FreshEntry))
  }

  /** Install a level-`level` block in the victim slot (test_base.py:236-248).
      `D`, `L` and `TAG` keep what the slot held. */
  function InstallF(st: State, addr: nat, level: int, last: int): (r: State)
    requires Wf(st) && addr < AddressSpace && 1 <= level <= NumBth
    ensures Wf(r) && r.cursor == st.cursor && r.tlb == st.tlb && r.top == st.top
    ensures RefsBounded(st.pool) ==> RefsBounded(r.pool)
  {
    var v := PyIndex(st.cursor, Capacity);
    var b := st.pool[v];
    var dut := b.dut.(valid := true, parentValid := true, level := level, refs := 1);
    var tt := b.tt.(parent := if level == 1 then TopSlot(addr) else last);
    st.(pool := st.pool[v := Block(dut, tt, FreshPayload(level))])
  }

  /** The installed slot is a live block of the requested level with one
      reference, whose parent field names its parent, and whose fresh
      payload answers every search step with an invalid entry (an internal
      block) or holds zeros (a leaf). Every other slot is untouched. */
  lemma InstallReference(st: State, addr: nat, level: int, last: int)
    requires Wf(st) && addr < AddressSpace && 1 <= level <= NumBth
    ensures var r := InstallF(st, addr, level, last);
      var v := PyIndex(st.cursor, Capacity);
      && r.pool[v].dut == st.pool[v].dut.(valid := true, parentValid := true, level := level, refs := 1)
      && r.pool[v].tt.parent == (if level == 1 then TopSlot(addr) else last)
      && r.pool[v].tt.tag == st.pool[v].tt.tag
      && (level < NumBth ==> forall a: nat :: a < AddressSpace ==>
            Walk(r.pool, a, st.cursor, level) == Ok((SearchHit(false, st.cursor), r.pool)))
      && (level == NumBth ==> forall j :: 0 <= j < BlockSize ==> r.pool[v].data[j] == Word(0))
      && forall k :: 0 <= k < Capacity && k != v ==> r.pool[k] == st.pool[k]
  {
  }
}
