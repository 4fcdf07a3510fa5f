/** The fast-path table `cache_TLB`: a Python dict from block number to pool
    index, kept in insertion order, with the capacity check that runs before
    every fresh key is added (test_base.py:92-97 and 266-271). */
module FastPath {
  import opened CacheTypes

  /** `if len(cache_TLB) > TLB_size: pop the first key`, then
      `cache_TLB[key] = index`. A dict keeps the position of a key that is
      already present and appends a new one. */
  function Add(t: FastTable, key: int, index: int): (r: FastTable)
    requires TableWf(t)
    ensures TableWf(r)
  {
    TableLength(t);
    var t1 := if |t.entries| > TlbSize then FastTable(t.order[1..], t.entries - {t.order[0]}) else t;
    assert TableWf(t1) by {
      if |t.entries| > TlbSize {
        forall k ensures k in t1.entries <==> k in t1.order {
          if k in t.order[1..] {
            var j :| 1 <= j < |t.order| && t.order[j] == k;
            assert t.order[0] != t.order[j];
          }
          if k in t.order && k != t.order[0] {
            var j :| 0 <= j < |t.order| && t.order[j] == k;
            assert t1.order[j - 1] == k;
          }
        }
      }
    }
    if key in t1.entries then FastTable(t1.order, t1.entries[key := index])
    else FastTable(t1.order + [key], t1.entries[key := index])
  }

  /** The insertion order with one key taken out. */
  function Without(s: seq<int>, key: int): (r: seq<int>)
    ensures forall k :: k in r <==> k in s && k != key
    ensures Distinct(s) ==> Distinct(r)
    ensures |r| <= |s|
    ensures key !in s ==> r == s
    // Taking out a key present once leaves the other keys in their order.
    ensures Distinct(s) && key in s ==>
      exists j :: 0 <= j < |s| && s[j] == key && r == s[..j] + s[j+1..]
  {
    if s == [] then []
    else
      var rest := Without(s[1..], key);
      if s[0] == key then
        assert Distinct(s) ==> key !in s[1..] && rest == s[..0] + s[1..] by {
          if Distinct(s) { DistinctTail(s); }
        }
        rest
      else
        assert Distinct(s) ==> Distinct([s[0]] + rest) by {
          if Distinct(s) { DistinctTail(s); ConsDistinct(s[0], rest); }
        }
        assert key !in s ==> [s[0]] + rest == s by {
          if key !in s { assert key !in s[1..]; assert [s[0]] + s[1..] == s; }
        }
        assert Distinct(s) && key in s ==>
          exists j :: 0 <= j < |s| && s[j] == key && [s[0]] + rest == s[..j] + s[j+1..]
        by {
          if Distinct(s) && key in s {
            DistinctTail(s);
            assert key in s[1..];
            var j :| 0 <= j < |s[1..]| && s[1..][j] == key && rest == s[1..][..j] + s[1..][j+1..];
            ConsOrder(s, rest, j);
          }
        }
        [s[0]] + rest
  }

  lemma DistinctTail(s: seq<int>)
    requires Distinct(s) && s != []
    ensures Distinct(s[1..]) && s[0] !in s[1..]
  {
    forall k | 0 <= k < |s[1..]| ensures s[1..][k] != s[0] {
      assert s[1..][k] == s[k + 1];
    }
  }

  lemma ConsDistinct(x: int, rest: seq<int>)
    requires Distinct(rest) && x !in rest
    ensures Distinct([x] + rest)
  {
    var r := [x] + rest;
    forall i, j | 0 <= i < j < |r| ensures r[i] != r[j] {
      if i == 0 { assert r[j] == rest[j - 1]; }
      else { assert r[i] == rest[i - 1] && r[j] == rest[j - 1]; }
    }
  }

  lemma ConsOrder(s: seq<int>, rest: seq<int>, j: nat)
    requires j + 1 < |s| && rest == s[1..][..j] + s[1..][j+1..]
    ensures [s[0]] + rest == s[..j + 1] + s[j + 2..]
  {
    assert s[1..][..j] == s[1..j + 1];
    assert s[1..][j+1..] == s[j + 2..];
    assert [s[0]] + s[1..j + 1] == s[..j + 1];
  }

  /** `cache_TLB.pop(key)` guarded by `key in cache_TLB` (test_base.py:209-210). */
  function Remove(t: FastTable, key: int): (r: FastTable)
    requires TableWf(t)
    ensures TableWf(r)
    ensures r.entries == t.entries - {key}
    ensures forall k :: k in r.order ==> k in t.order
    ensures |r.order| <= |t.order|
    ensures key !in t.entries ==> r == t
    // The surviving keys keep their insertion order, as `dict.pop` keeps it.
    ensures key in t.entries ==>
      exists j :: 0 <= j < |t.order| && t.order[j] == key && r.order == t.order[..j] + t.order[j+1..]
  {
    if key !in t.entries then t else FastTable(Without(t.order, key), t.entries - {key})
  }

  /** Adding a key maps it to the given index and keeps every other
      surviving entry unchanged; at most one entry is evicted, the earliest
      inserted one, and only when the table held more than TlbSize entries;
      a fresh key goes to the end of the insertion order. */
  lemma AddFifo(t: FastTable, key: int, index: int)
    requires TableWf(t)
    ensures var r := Add(t, key, index);
      && key in r.entries && r.entries[key] == index
      && (forall k :: k in r.entries && k != key ==> k in t.entries && r.entries[k] == t.entries[k])
      && (forall k :: k in t.entries && k !in r.entries ==> |t.order| > TlbSize && k == t.order[0])
      && (key !in t.entries ==> r.order == (if |t.order| > TlbSize then t.order[1..] else t.order) + [key])
  {
    TableLength(t);
  }

  /** The table never grows beyond one entry over TlbSize: the check runs
      before the key is added and pops one key when the size exceeds it. */
  lemma AddBound(t: FastTable, key: int, index: int)
    requires TableWf(t)
    requires |t.order| <= TlbSize + 1
    ensures |Add(t, key, index).order| <= TlbSize + 1
  {
    TableLength(t);
  }
}
