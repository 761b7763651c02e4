/** The string hash and the chained hash table of hash.c. */
module Hashing {
  import opened Bytes

  /** Keys are compared and hashed over their bytes; a C string counts its terminating NUL, so no key is empty. */
  type Key = k: seq<Byte> | k != [] witness [0]

  const TWO64: nat := 0x1_0000_0000_0000_0000

  /** A table size is one less than a power of two. */
  ghost predicate IsMask(size: nat)
  {
    exists k: nat :: size + 1 == Pow2(k)
  }

  /** hash * 33 + c over the key, in 64 bits. */
  function Djb(key: seq<Byte>, h: nat): nat
  {
    if key == [] then h else Djb(key[1..], (h * 33 + key[0]) % TWO64)
  }

  function Pow33(n: nat): nat { if n == 0 then 1 else 33 * Pow33(n - 1) }

  /** The sum of key[i] * 33^(n - 1 - i), for n bytes. */
  function Weighted(key: seq<Byte>): nat
  {
    if key == [] then 0 else key[0] * Pow33(|key| - 1) + Weighted(key[1..])
  }

  /** The hash before it is masked: 5381 * 33^n and the weighted sum of the bytes, modulo 2^64. */
  lemma HashIsSum(key: Key)
    ensures Djb(key, 5381) == (5381 * Pow33(|key|) + Weighted(key)) % TWO64
  {
    DjbIsSum(key, 5381);
  }

  lemma {:induction false} DjbIsSum(key: seq<Byte>, h: nat)
    requires h < TWO64
    ensures Djb(key, h) == (h * Pow33(|key|) + Weighted(key)) % TWO64
  {
    if key == [] {
      Small(h);
    } else {
      var g, p, rest := h * 33 + key[0], Pow33(|key| - 1), Weighted(key[1..]);
      DjbIsSum(key[1..], g % TWO64);
      Reduced(g, p, rest);
      Distributed(h, key[0], p);
    }
  }

  lemma Small(h: nat)
    requires h < TWO64
    ensures h == (h * Pow33(0) + Weighted([])) % TWO64
  {
  }

  lemma Distributed(h: nat, c: nat, p: nat)
    ensures (h * 33 + c) * p == h * (33 * p) + c * p
  {
  }

  /** A factor may be reduced first. */
  lemma Reduced(g: nat, p: nat, rest: nat)
    ensures (g % TWO64 * p + rest) % TWO64 == (g * p + rest) % TWO64
  {
    var q, r := g / TWO64, g % TWO64;
    assert g == q * TWO64 + r;
    assert g * p + rest == (q * p) * TWO64 + (r * p + rest);
    MultipleGone(q * p, r * p + rest);
  }

  lemma MultipleGone(q: nat, x: nat)
    ensures (q * TWO64 + x) % TWO64 == x % TWO64
  {
    assert q * TWO64 + x == (q + x / TWO64) * TWO64 + x % TWO64;
  }

  /** The bits that x and y have in common: the & of C. */
  function And(x: nat, y: nat): (r: nat)
    ensures r <= x && r <= y
  {
    if x == 0 || y == 0 then 0 else 2 * And(x / 2, y / 2) + (x % 2) * (y % 2)
  }

  /** x >> k. */
  function Shift(x: nat, k: nat): nat
  {
    if k == 0 then x else Shift(x / 2, k - 1)
  }

  /** With a table size 2^k - 1, & is the remainder modulo 2^k: it takes the low bits of x and no other. */
  lemma {:induction false} AndMask(x: nat, k: nat)
    ensures And(x, Pow2(k) - 1) < Pow2(k) && x == Shift(x, k) * Pow2(k) + And(x, Pow2(k) - 1)
  {
    if k > 0 {
      AndMask(x / 2, k - 1);
      AndOdd(x, Pow2(k - 1) - 1);
      Twice(Shift(x, k), Pow2(k - 1));
    }
  }

  lemma AndOdd(x: nat, y: nat)
    ensures And(x, 2 * y + 1) == 2 * And(x / 2, y) + x % 2
  {
    assert (2 * y + 1) / 2 == y;
  }

  lemma Twice(q: nat, p: nat)
    ensures q * (2 * p) == 2 * (q * p)
  {
  }

  function HashOf(size: nat, key: Key): (r: nat)
    ensures r <= size
  {
    var h := Djb(key, 5381);
    And(if h == 0 then 1 else h, size)
  }

  /** ci_hash_compute. */
  method HashCompute(size: nat, key: Key) returns (r: nat)
    ensures r == HashOf(size, key)
  {
    var hash: nat := 5381;
    assert key[0..] == key;
    for i := 0 to |key|
      invariant Djb(key, 5381) == Djb(key[i..], hash)
    {
      hash := (hash * 33 + key[i]) % TWO64;
      assert key[i..][1..] == key[i + 1..];
    }
    assert key[|key|..] == [];
    if hash == 0 {
      hash := hash + 1;
    }
    r := And(hash, size);
  }

  /** The size computation shared by ci_hash_build and ci_local_cache_init: the least 2^k - 1 from 63 on
      that is not below wanted, but not beyond the first one reaching 0xFFFFFF. */
  method TableSize(wanted: nat) returns (size: nat)
    ensures IsMask(size) && 63 <= size <= 0xFFFFFF
    ensures wanted <= 0xFFFFFF ==> wanted <= size
    ensures size == 63 || (size + 1) / 2 - 1 < wanted
  {
    size := 63;
    ghost var k := 6;
    assert Pow2(3) == 8 && Pow2(6) == 64;
    if wanted > 63 {
      while size < wanted && size < 0xFFFFFF
        invariant 6 <= k <= 24 && size + 1 == Pow2(k)
        invariant 63 <= size && (size == 63 || (size + 1) / 2 - 1 < wanted)
        invariant size <= 0xFFFFFF
        decreases 0xFFFFFF - size
      {
        Doubling(k);
        size := size + 1;
        size := size * 2 - 1;
        k := k + 1;
      }
    }
  }

  /** Below 2^24 doubling does not pass 2^24. */
  lemma Doubling(k: nat)
    requires k <= 24 && Pow2(k) < 0x100_0000
    ensures k < 24 && Pow2(k + 1) == 2 * Pow2(k) <= 0x100_0000
  {
    assert Pow2(8) == 256;
    assert Pow2(16) == 65536;
    assert Pow2(24) == 0x100_0000;
    if k < 24 {
      Pow2Monotone(k + 1, 24);
    }
  }

  lemma {:induction false} Pow2Monotone(a: nat, b: nat)
    requires a <= b
    ensures Pow2(a) <= Pow2(b)
    decreases b
  {
    if a < b {
      Pow2Monotone(a, b - 1);
    }
  }
}

/** The two text lookup tables of lookup_file_table.c: a linear list of rows, and a hash index over it.
    A row is identified by its position, as the C code identifies it by its address. */
module LookupTable {
  import opened Bytes
  import opened Hashing

  datatype Row = Row(key: Key, vals: seq<seq<Byte>>)

  /** The first row with this key, or -1. */
  function FirstRow(rows: seq<Row>, key: Key, i: nat): (r: int)
    requires i <= |rows|
    ensures r >= 0 ==> i <= r < |rows| && rows[r].key == key && forall j :: i <= j < r ==> rows[j].key != key
    ensures r < 0 ==> r == -1 && forall j :: i <= j < |rows| ==> rows[j].key != key
    decreases |rows| - i
  {
    if i == |rows| then -1 else if rows[i].key == key then i else FirstRow(rows, key, i + 1)
  }

  /** The last of the first n rows that is in the index and has this key, or -1. */
  function LastStored(rows: seq<Row>, stored: seq<bool>, key: Key, n: nat): (r: int)
    requires n <= |rows| && n <= |stored|
    ensures r >= 0 ==> r < n && stored[r] && rows[r].key == key && forall j :: r < j < n && stored[j] ==> rows[j].key != key
    ensures r < 0 ==> r == -1 && forall j :: 0 <= j < n && stored[j] ==> rows[j].key != key
  {
    if n == 0 then -1 else if stored[n - 1] && rows[n - 1].key == key then n - 1 else LastStored(rows, stored, key, n - 1)
  }

  predicate DistinctKeys(rows: seq<Row>)
  {
    forall i, j :: 0 <= i < j < |rows| ==> rows[i].key != rows[j].key
  }

  predicate IsFirst(rows: seq<Row>, i: nat)
    requires i < |rows|
  {
    FirstRow(rows, rows[i].key, 0) == i
  }

  /** The index answers like the list for every key. */
  ghost predicate Agrees(rows: seq<Row>, stored: seq<bool>)
    requires |stored| == |rows|
  {
    forall key: Key :: FirstRow(rows, key, 0) == LastStored(rows, stored, key, |rows|)
  }

  /** The index agrees with the list exactly when the rows that made it into the index are those that come first
      with their key. */
  lemma IndexAgreesIff(rows: seq<Row>, stored: seq<bool>)
    requires |stored| == |rows|
    ensures Agrees(rows, stored) <==> forall i :: 0 <= i < |rows| ==> (stored[i] <==> IsFirst(rows, i))
  {
    if Agrees(rows, stored) {
      forall i | 0 <= i < |rows| ensures stored[i] <==> IsFirst(rows, i) {
        assert FirstRow(rows, rows[i].key, 0) == LastStored(rows, stored, rows[i].key, |rows|);
      }
    } else {
      var key: Key :| FirstRow(rows, key, 0) != LastStored(rows, stored, key, |rows|);
      var f, l := FirstRow(rows, key, 0), LastStored(rows, stored, key, |rows|);
      assert f >= 0 ==> IsFirst(rows, f);
      assert l >= 0 ==> f <= l && (f == l || !IsFirst(rows, l));
    }
  }

  /** With memory for every row that is when no key is loaded twice. */
  lemma FullIndexAgreesIff(rows: seq<Row>, stored: seq<bool>)
    requires |stored| == |rows| && forall i :: 0 <= i < |stored| ==> stored[i]
    ensures Agrees(rows, stored) <==> DistinctKeys(rows)
  {
    IndexAgreesIff(rows, stored);
    if DistinctKeys(rows) {
      forall i | 0 <= i < |rows| ensures IsFirst(rows, i) {
      }
    } else {
      var i, j :| 0 <= i < j < |rows| && rows[i].key == rows[j].key;
      assert !IsFirst(rows, j);
    }
  }

  /** One failed ci_hash_add is enough: with all keys different the row it was for is found by the list and not
      by the index. */
  lemma LostRow(rows: seq<Row>, stored: seq<bool>, i: nat)
    requires DistinctKeys(rows) && |stored| == |rows| && i < |rows| && !stored[i]
    ensures FirstRow(rows, rows[i].key, 0) == i && LastStored(rows, stored, rows[i].key, |rows|) == -1
  {
  }

  /** The indexed rows among the first n that hash to bucket b, newest first. */
  function Chain(rows: seq<Row>, stored: seq<bool>, size: nat, n: nat, b: nat): (c: seq<nat>)
    requires n <= |rows| && n <= |stored|
    ensures forall i :: 0 <= i < |c| ==> c[i] < n
  {
    if n == 0 then []
    else if stored[n - 1] && HashOf(size, rows[n - 1].key) == b then [n - 1] + Chain(rows, stored, size, n - 1, b)
    else Chain(rows, stored, size, n - 1, b)
  }

  /** Rows stored later do not change the chain of the earlier ones. */
  lemma {:induction false} ChainKept(rows: seq<Row>, stored: seq<bool>, more: seq<bool>, size: nat, n: nat, b: nat)
    requires n <= |rows| && n <= |stored|
    ensures Chain(rows, stored + more, size, n, b) == Chain(rows, stored, size, n, b)
    decreases n
  {
    if n > 0 {
      ChainKept(rows, stored, more, size, n - 1, b);
    }
  }

  /** The first chain element with the key. */
  function InChain(rows: seq<Row>, chain: seq<nat>, key: Key): int
    requires forall i :: 0 <= i < |chain| ==> chain[i] < |rows|
  {
    if chain == [] then -1 else if rows[chain[0]].key == key then chain[0] else InChain(rows, chain[1..], key)
  }

  /** Searching the key's own chain finds its last indexed row. */
  lemma {:induction false} ChainFindsLast(rows: seq<Row>, stored: seq<bool>, size: nat, n: nat, key: Key)
    requires n <= |rows| && n <= |stored|
    ensures InChain(rows, Chain(rows, stored, size, n, HashOf(size, key)), key) == LastStored(rows, stored, key, n)
    decreases n
  {
    if n > 0 {
      ChainFindsLast(rows, stored, size, n - 1, key);
      var c := Chain(rows, stored, size, n - 1, HashOf(size, key));
      assert ([n - 1] + c)[1..] == c;
    }
  }

  /** struct ci_hash_table over the rows of a text table. */
  class HashTable {
    const size: nat
    const buckets: array<seq<nat>>
    const rows: seq<Row>
    ghost var stored: seq<bool>  // for every row that was added, whether there was memory for it

    ghost predicate Valid()
      reads this, buckets
    {
      && IsMask(size) && buckets.Length == size + 1 && |stored| <= |rows|
      && forall b :: 0 <= b <= size ==> buckets[b] == Chain(rows, stored, size, |stored|, b)
    }

    /** ci_hash_build: 2^k empty buckets. */
    constructor (rows: seq<Row>)
      ensures Valid() && fresh(buckets) && stored == [] && this.rows == rows
    {
      var n := TableSize(|rows|);
      size := n;
      buckets := new seq<nat>[n + 1](_ => []);
      this.rows := rows;
      stored := [];
    }

    /** ci_hash_add: the new entry becomes the head of its bucket; without memory for it nothing changes, and
        the answer is NULL. */
    method Add(row: nat, room: bool) returns (ok: bool)
      requires Valid() && row == |stored| < |rows|
      modifies this`stored, buckets
      ensures Valid() && ok == room && stored == old(stored) + [room]
    {
      forall b ensures Chain(rows, stored + [room], size, |stored|, b) == Chain(rows, stored, size, |stored|, b) {
        ChainKept(rows, stored, [room], size, |stored|, b);
      }
      var hash := HashCompute(size, rows[row].key);
      stored := stored + [room];
      if !room {
        return false;
      }
      buckets[hash] := [row] + buckets[hash];
      return true;
    }

    /** ci_hash_search: walk the chain of the key's bucket. */
    method Search(key: Key) returns (r: int)
      requires Valid()
      ensures r == LastStored(rows, stored, key, |stored|)
    {
      hide HashOf, Chain, LastStored;
      var hash := HashCompute(size, key);
      var e: seq<nat> := buckets[hash];
      ChainFindsLast(rows, stored, size, |stored|, key);
      while e != []
        invariant forall i :: 0 <= i < |e| ==> e[i] < |stored|
        invariant InChain(rows, e, key) == LastStored(rows, stored, key, |stored|)
        decreases |e|
      {
        if rows[e[0]].key == key {
          return e[0];
        }
        e := e[1..];
      }
      return -1;
    }
  }

  /** hash_table_open: add every row to the index, in order, whatever the answers. There is no table exactly when
      ci_hash_build has no memory for one; rooms says for every row whether there was memory for its entry. */
  method HashTableOpen(rows: seq<Row>, build: bool, rooms: seq<bool>) returns (t: HashTable?)
    requires |rooms| == |rows|
    ensures t == null <==> !build
    ensures t != null ==> fresh(t) && t.Valid() && t.rows == rows && t.stored == rooms
  {
    if !build {
      return null;
    }
    var table := new HashTable(rows);
    for e := 0 to |rows|
      invariant fresh(table) && fresh(table.buckets) && table.Valid() && table.rows == rows && table.stored == rooms[..e]
    {
      var _ := table.Add(e, rooms[e]);
    }
    t := table;
  }

  /** file_table_search: the first row that matches. */
  method FileTableSearch(rows: seq<Row>, key: Key) returns (r: int)
    ensures r == FirstRow(rows, key, 0)
  {
    for e := 0 to |rows|
      invariant FirstRow(rows, key, 0) == FirstRow(rows, key, e)
    {
      if rows[e].key == key {
        return e;
      }
    }
    return -1;
  }
}
