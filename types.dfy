/** Shared vocabulary of the software-trie cache of test_base.py: the
    configuration constants, the records of the trie, Python's list indexing
    and the exception outcome every operation may end in. */
module CacheTypes {

  // ---------------------------------------------------------------------
  // Configuration (test_base.py:34-44). The values are the source's; the
  // derived ones are written out and checked by ConfigurationFormulas.
  // ---------------------------------------------------------------------

  /** Bytes per pool block, `blockSize`. */
  const BlockSize: nat := 64
  /** Child entries in an internal block, `blockSize/2`. */
  const Fanout: nat := 32
  /** Number of pool slots, `(1<<15)//blockSize`. */
  const Capacity: nat := 512
  /** Depth of the trie, `num_BTH`: level NumBth holds data, levels 1..NumBth-1 child entries. */
  const NumBth: nat := 3
  /** Fast-path table threshold, `TLB_size`. */
  const TlbSize: nat := 65536
  /** Maximum counted attempts of one victim scan, `MNA`. */
  const Mna: nat := 5
  /** Address span of one top-table entry, `blockSize*((blockSize/2)**(num_BTH-1))`. */
  const L0tOffset: nat := 65536
  /** Addresses are 32-bit: the top table covers `1<<32` bytes. */
  const AddressSpace: nat := 0x1_0000_0000
  /** Length of the top table, `(1<<32)//L0T_offset`. */
  const TopSize: nat := 65536
  /** A traversal increments a reference count only while it is below this bound. */
  const RefLimit: nat := 32

  /** x raised to e. */
  function Power(x: int, e: nat): (r: int)
  {
    if e == 0 then 1 else x * Power(x, e - 1)
  }

  /** The literal constants above are the source's formulas evaluated. */
  lemma ConfigurationFormulas()
    ensures Fanout == BlockSize / 2
    ensures Capacity == 0x8000 / BlockSize
    ensures L0tOffset == BlockSize * Power(Fanout, NumBth - 1)
    ensures TopSize == AddressSpace / L0tOffset
  {
    assert Power(Fanout, 2) == Fanout * Power(Fanout, 1);
  }

  // ---------------------------------------------------------------------
  // Records (test_base.py:11-31)
  // ---------------------------------------------------------------------

  /** `BTH_entry`: a child pointer with its valid bit `V` and pool index `I`.
      The top table holds the same records. */
  datatype BthEntry = BthEntry(valid: bool, index: int)

  /** A freshly constructed `BTH_entry()`: V = 0, I = 0. */
  const FreshEntry := BthEntry(false, 0)

  /** One element of a block's payload list. Python keeps child entries (in
      internal blocks) and data values (in leaf blocks) in the same list
      field, so a stale pointer can make an operation meet the other kind. */
  datatype Cell = Entry(entry: BthEntry) | Word(word: int)

  /** `DUT_entry`: V (valid), D (dirty), L (locked), LF (level), PV (parent
      valid) and R (reference count). */
  datatype Dut = Dut(valid: bool, dirty: bool, locked: bool, level: int, parentValid: bool, refs: int)

  /** `TT_entry`: TAG (block tag of a leaf) and PT (top slot of a level-1
      block, pool index of the parent of a deeper block). */
  datatype Tt = Tt(tag: int, parent: int)

  /** `DBA_entry`: one pool slot with its payload list. */
  datatype Block = Block(dut: Dut, tt: Tt, data: seq<Cell>)

  /** `DBA_entry()` as constructed: every field at its class default, payload `[]`. */
  const EmptyBlock := Block(Dut(false, false, false, 0, false, 0), Tt(0, 0), [])

  // ---------------------------------------------------------------------
  // Python semantics
  // ---------------------------------------------------------------------

  /** The exceptions the core can raise: a list index out of range, an
      attribute access on a data value that is not an entry, and the two
      `assert` statements of `insert`. */
  datatype PyError = IndexError | AttributeError | AssertionError

  /** The result of an operation, or the exception that ends the run. */
  datatype Outcome<+T> = Ok(value: T) | Raise(error: PyError)
  {
    predicate IsFailure() { Raise? }

    function PropagateFailure<U>(): Outcome<U>
      requires Raise?
    {
      Raise(error)
    }

    function Extract(): T
      requires Ok?
    {
      value
    }
  }

  /** Python accepts a list index i when -n <= i < n. */
  predicate InBounds(i: int, n: nat)
  {
    -(n as int) <= i < n
  }

  /** The element a Python index denotes: a negative index counts from the end. */
  function PyIndex(i: int, n: nat): (k: nat)
    requires InBounds(i, n)
    ensures k < n
    ensures i >= 0 ==> k == i
  {
    if i < 0 then i + n else i
  }

  // ---------------------------------------------------------------------
  // Whole-cache state
  // ---------------------------------------------------------------------

  /** The fast-path table `cache_TLB`: a dict, i.e. a map with the order in
      which its keys were inserted. */
  datatype FastTable = FastTable(order: seq<int>, entries: map<int, int>)

  /** The whole process-wide state: `cache_L0T`, `cache_DBA`, `cache_TLB` and `VBIR`. */
  datatype State = State(top: seq<BthEntry>, pool: seq<Block>, tlb: FastTable, cursor: int)

  predicate Distinct(s: seq<int>)
  {
    forall i, j :: 0 <= i < j < |s| ==> s[i] != s[j]
  }

  /** A dict's insertion order lists each of its keys exactly once. */
  ghost predicate TableWf(t: FastTable)
  {
    Distinct(t.order) && forall k :: k in t.entries <==> k in t.order
  }

  /** Nothing in the source ever sets a lock bit or a dirty bit, and levels
      stay in 0..NumBth. */
  predicate SlotWf(b: Block)
  {
    !b.dut.locked && !b.dut.dirty && 0 <= b.dut.level <= NumBth
  }

  /** The shape every state has: fixed table sizes, the cursor a valid Python
      index into the pool (-1 only between a fallback selection and the
      cursor's advance), a well-formed dict and well-formed slots. */
  ghost predicate Wf(st: State)
  {
    |st.top| == TopSize && |st.pool| == Capacity && -1 <= st.cursor < Capacity
    && TableWf(st.tlb)
    && forall k :: 0 <= k < |st.pool| ==> SlotWf(st.pool[k])
  }

  /** Every reference count lies in 0..RefLimit. */
  predicate RefsBounded(pool: seq<Block>)
  {
    forall k :: 0 <= k < |pool| ==> 0 <= pool[k].dut.refs <= RefLimit
  }

  /** The invariant kept between operations: well-formed, the cursor on a
      real slot, counters bounded, and the fast-path table at most one entry
      over its threshold. */
  ghost predicate Invariant(st: State)
  {
    Wf(st) && 0 <= st.cursor && RefsBounded(st.pool) && |st.tlb.order| <= TlbSize + 1
  }

  lemma {:induction false} DistinctCard(s: seq<int>)
    requires Distinct(s)
    ensures |set x | x in s| == |s|
  {
    if s != [] {
      assert Distinct(s[1..]);
      DistinctCard(s[1..]);
      assert (set x | x in s) == (set x | x in s[1..]) + {s[0]};
    }
  }

  /** The dict's length is the length of its insertion order. */
  lemma TableLength(t: FastTable)
    requires TableWf(t)
    ensures |t.entries| == |t.order|
  {
    DistinctCard(t.order);
    assert t.entries.Keys == set x | x in t.order;
  }
}
