/** ci_vector_t: one block of memory with an index that grows from the front and items that grow from the
    rear. Addresses are offsets from the start of the block. */
module Vector {
  import opened Bytes
  import opened FlatArray

  const NULL: nat := 0
  /** _CI_ALIGN. */
  function Align(n: nat): (r: nat)
    ensures n <= r < n + 8 && r % 8 == 0
  {
    (n + 7) / 8 * 8
  }

  /** The sizes of the structures in front of the index: those of the allocator, and ci_vector_t. */
  datatype Sizes = Sizes(pack: nat, vector: nat)
  {
    /** Where the index starts. */
    function First(): nat { pack + Align(vector) }

    /** Where a block of maxSize bytes ends for the allocator. */
    function End(maxSize: nat): (e: nat)
      requires pack <= maxSize
      ensures pack <= e <= maxSize < e + 8
    {
      pack + (maxSize - pack) / 8 * 8
    }
  }

  /** The value lies at address p. */
  predicate StoredAt(mem: seq<Byte>, p: nat, value: seq<Byte>)
  {
    p + |value| <= |mem| && mem[p..p + |value|] == value
  }

  /** The end of the room of item i: the item before it, or end for the first. */
  function Prev(slots: seq<nat>, i: nat, end: nat): nat
    requires i <= |slots|
  {
    if i == 0 then end else slots[i - 1]
  }

  /** Each item lies below the one before it. */
  predicate Stacked(slots: seq<nat>, values: seq<seq<Byte>>, end: nat)
  {
    |values| <= |slots| && forall i :: 0 <= i < |values| ==> slots[i] + |values[i]| <= Prev(slots, i, end)
  }

  /** The slots lead to the values, from the rear down. */
  predicate Stored(mem: seq<Byte>, slots: seq<nat>, values: seq<seq<Byte>>, end: nat)
  {
    Stacked(slots, values, end) && forall i :: 0 <= i < |values| ==> StoredAt(mem, slots[i], values[i])
  }

  /** The last item is the lowest one. */
  lemma {:induction false} Lowest(slots: seq<nat>, values: seq<seq<Byte>>, end: nat, i: nat)
    requires Stacked(slots, values, end) && i < |values|
    ensures Prev(slots, |values|, end) <= slots[i]
    decreases |values| - i
  {
    if i + 1 < |values| {
      Lowest(slots, values, end, i + 1);
      assert slots[i + 1] + |values[i + 1]| <= Prev(slots, i + 1, end);
    }
  }

  lemma SameAbove(mem: seq<Byte>, mem': seq<Byte>, low: nat, p: nat, value: seq<Byte>)
    requires |mem'| == |mem| && low <= p && low <= |mem| && mem'[low..] == mem[low..] && StoredAt(mem, p, value)
    ensures StoredAt(mem', p, value)
  {
    forall k | low <= k < |mem| ensures mem'[k] == mem[k] {
      assert mem'[low..][k - low] == mem[low..][k - low];
    }
    assert mem'[p..p + |value|] == mem[p..p + |value|];
  }

  /** Only the slots of the values and the memory from the lowest item on matter. */
  lemma StoredFrame(mem: seq<Byte>, mem': seq<Byte>, slots: seq<nat>, slots': seq<nat>, values: seq<seq<Byte>>, end: nat, low: nat)
    requires Stored(mem, slots, values, end) && |mem'| == |mem| && |values| <= |slots'|
    requires forall i :: 0 <= i < |values| ==> slots'[i] == slots[i]
    requires low <= |mem| && mem'[low..] == mem[low..] && low <= Prev(slots, |values|, end)
    ensures Stored(mem', slots', values, end)
  {
    hide StoredAt;
    forall i | 0 <= i < |values| ensures StoredAt(mem', slots'[i], values[i]) {
      Lowest(slots, values, end, i);
      SameAbove(mem, mem', low, slots[i], values[i]);
    }
    forall i | 0 <= i < |values| ensures slots'[i] + |values[i]| <= Prev(slots', i, end) {
      assert slots[i] + |values[i]| <= Prev(slots, i, end);
      assert i > 0 ==> slots'[i - 1] == slots[i - 1];
    }
  }

  /** One more value below the others. */
  lemma StoredNext(mem: seq<Byte>, slots: seq<nat>, values: seq<seq<Byte>>, end: nat, value: seq<Byte>)
    requires Stored(mem, slots, values, end) && |values| < |slots| && StoredAt(mem, slots[|values|], value)
    requires slots[|values|] + |value| <= Prev(slots, |values|, end)
    ensures Stored(mem, slots, values + [value], end)
  {
    hide StoredAt;
    var all := values + [value];
    forall i | 0 <= i < |all| ensures StoredAt(mem, slots[i], all[i]) && slots[i] + |all[i]| <= Prev(slots, i, end) {
      assert i < |values| ==> all[i] == values[i] && slots[i] + |values[i]| <= Prev(slots, i, end);
    }
  }

  class Vector {
    const mem: array<Byte>
    const first: nat            // where the index starts
    const end: nat
    var slots: seq<nat>         // the index words in front of curpos
    var curpos: nat
    var endpos: nat
    var count: nat
    var last: nat               // the number of the slot that last points to
    var aligned: bool

    ghost var values: seq<seq<Byte>>

    /** ci_vector_create. */
    constructor (maxSize: nat, sizes: Sizes)
      requires maxSize >= sizes.First() + WORD + 8 && sizes.First() > 0
      ensures Valid() && values == [] && aligned && fresh(mem) && mem.Length == maxSize
      ensures first == sizes.First() && end == sizes.End(maxSize)
    {
      mem := new Byte[maxSize];
      first, end := sizes.First(), sizes.End(maxSize);
      slots, curpos, endpos := [NULL], sizes.First() + WORD, sizes.End(maxSize);
      count, last, aligned, values := 0, 0, true, [];
    }

    /** The values are there, the index ends in the NULL behind them, and the allocator's two ends do not reach
        either. */
    ghost predicate Intact()
      reads this, mem
    {
      && count == last == |values| < |slots| && slots[count] == NULL && first > 0 && end <= mem.Length
      && Stored(mem[..], slots, values, end)
      && first + WORD * |slots| == curpos <= endpos <= Prev(slots, count, end)
    }

    /** And nothing is reserved that is not used. */
    ghost predicate Valid()
      reads this, mem
    {
      Intact() && |slots| == count + 1 && endpos == Prev(slots, count, end)
    }

    /** What ci_vector_add takes from the rear for a value. */
    function Reserved(value: seq<Byte>): (n: nat)
      reads `aligned
      ensures n >= |value|
    {
      if aligned then Align(|value|) else |value|
    }

    /** ci_vector_add: the address of the item, or NULL when the index or the item finds no room. A failed call
        leaves the values alone, but it may keep an index word, and then the next one that succeeds leaves
        that word, with whatever is in it, where the index should end. */
    method Add(value: seq<Byte>) returns (r: nat)
      requires Intact()
      modifies this, mem
      ensures aligned == old(aligned)
      ensures r == NULL <==> old(endpos - curpos) < WORD + old(Reserved(value))
      ensures r == NULL ==> Intact() && values == old(values) && mem[..] == old(mem[..])
      ensures r == NULL && old(Valid()) ==>
                (Valid() <==> old(endpos - curpos) < WORD && (old(endpos - curpos) < old(Reserved(value)) || old(Reserved(value)) == 0))
      ensures r != NULL ==> (Intact() <==> old(|slots| == count + 1)) && r == old(endpos) - old(Reserved(value))
      ensures r != NULL ==> slots == old(slots)[old(count) := r] + [NULL] && count == old(count) + 1 && last == |slots| - 1
      ensures r != NULL && Intact() ==> Valid() && values == old(values) + [value] && r == slots[count - 1]
      ensures r != NULL ==> mem[old(Prev(slots, count, end))..] == old(mem[Prev(slots, count, end)..])
    {
      hide Stored;
      InMemory();
      var indexed := WORD <= endpos - curpos;
      if indexed {
        var garbage: nat := *;
        Frame(slots + [garbage]);
        curpos, slots := curpos + WORD, slots + [garbage];
      }
      var size := Reserved(value);
      var stored := size <= endpos - curpos;
      if stored {
        endpos := endpos - size;
      }
      if !indexed || !stored {
        return NULL;
      }
      r := endpos;
      Write(value);
    }

    lemma InMemory()
      requires Intact()
      ensures Prev(slots, count, end) <= mem.Length
    {
      assert count > 0 ==> StoredAt(mem[..], slots[count - 1], values[count - 1]);
    }

    lemma Frame(slots': seq<nat>)
      requires Intact() && count < |slots'| && forall i :: 0 <= i <= count ==> slots'[i] == slots[i]
      ensures Stored(mem[..], slots', values, end) && Prev(slots', count, end) == Prev(slots, count, end)
    {
      StoredFrame(mem[..], mem[..], slots, slots', values, end, endpos);
    }

    /** The value is copied and the index extended. */
    method Write(value: seq<Byte>)
      requires count == last == |values| && |slots| >= count + 2 && slots[count] == NULL && first > 0 && end <= mem.Length
      requires Stored(mem[..], slots, values, end) && first + WORD * |slots| == curpos <= endpos
      requires endpos + |value| <= Prev(slots, count, end) <= mem.Length
      modifies `slots, `last, `count, `values, mem
      ensures Intact() <==> old(|slots| == count + 2)
      ensures Intact() ==> Valid() && values == old(values) + [value]
      ensures slots == old(slots)[old(count) := endpos][|old(slots)| - 1 := NULL]
      ensures count == old(count) + 1 && last == |slots| - 1
      ensures mem[old(Prev(slots, count, end))..] == old(mem[Prev(slots, count, end)..])
    {
      hide Stored;
      ghost var was, s0, low := mem[..], slots, Prev(slots, count, end);
      CopyIn(mem, endpos, value);
      assert mem[low..] == was[low..];
      slots := slots[last := endpos];
      last := |slots| - 1;
      slots := slots[last := NULL];
      StoredFrame(was, mem[..], s0, slots, values, end, low);
      assert mem[..][endpos..endpos + |value|] == value;
      StoredNext(mem[..], slots, values, end, value);
      count, values := count + 1, values + [value];
    }

    /** ci_vector_pop: the address of the last item. It also puts right what a failed ci_vector_add left. */
    method Pop() returns (r: nat)
      requires Intact()
      modifies `slots, `last, `count, `values, `curpos, `endpos
      ensures old(count) == 0 ==> r == NULL && unchanged(this)
      ensures old(count) > 0 ==> Valid() && values == old(values)[..old(count) - 1] && r == old(slots)[old(count) - 1]
      ensures old(count) > 0 ==> slots == old(slots)[..old(count)][old(count) - 1 := NULL] && aligned == old(aligned)
    {
      hide Stored;
      if count == 0 {
        return NULL;
      }
      Lower();
      curpos := first + WORD * last;
      slots := slots[..last];
      count := count - 1;
      last := count;
      endpos := if count == 0 then end else slots[count - 1];
      r := slots[last];
      slots := slots[last := NULL];
      values := values[..count];
      StoredPrefix(mem[..], old(slots), slots, old(values), values, end);
    }

    lemma Lower()
      requires Intact() && count > 0
      ensures Prev(slots, count, end) <= Prev(slots, count - 1, end)
    {
      assert slots[count - 1] + |values[count - 1]| <= Prev(slots, count - 1, end);
    }

    ghost function Spans(): (s: seq<seq<Byte>>)
      requires Intact()
      reads this, mem
      ensures |s| == count
    {
      StoredRoomy(mem[..], slots, values, end);
      Rooms(mem[..], slots, count)
    }

    /** ci_vector_get2. */
    method Get2(i: nat) returns (r: Option<seq<Byte>>)
      requires Intact()
      ensures r == if i < count then Some(Spans()[i]) else None
      ensures i < count ==> values[i] <= r.value
    {
      StoredRoomy(mem[..], slots, values, end);
      hide Stored;
      if i >= count {
        return None;
      }
      r := Some(mem[slots[i]..if i > 0 then slots[i - 1] else mem.Length]);
    }

    /** ci_flat_array_build_from_vector_to, for a vector that is not empty: the flat array holds each item with
        all of its room. */
    method Flatten(words: array<nat>, data: array<Byte>) returns (size: nat)
      requires Intact() && count > 0 && words.Length == count + 2 && data != mem
      modifies words, data
      ensures size == 0 <==> mem.Length - slots[count - 1] > data.Length
      ensures size != 0 ==> Flat(words[..], data[..]).Holds(Spans())
      ensures size != 0 ==> words[0] == size == WORD * (count + 2) + Total(Spans())
    {
      hide Stored, Flat.Holds, Rooms, Total, Roomy;
      StoredRoomy(mem[..], slots, values, end);
      var start := slots[count - 1];
      var base := WORD * (count + 2);
      size := base + (mem.Length - start);
      if size > WORD * words.Length + data.Length {
        return 0;
      }
      words[0] := size;
      CopyIn(data, 0, mem[start..]);
      assert data[..mem.Length - start] == mem[start..];
      FillIndex(words, slots, count, start, base);
      TotalRooms(mem[..], slots, count);
      FlatRooms(mem[..], slots, count, start, words[..], data[..]);
    }
  }

  // ------------------------------------------------------------------ flat arrays and vectors

  /** Each of the first n slots has room up to the slot before it, and the first up to the end of the block. */
  predicate Roomy(mem: seq<Byte>, slots: seq<nat>, n: nat)
  {
    n <= |slots| && forall i :: 0 <= i < n ==> slots[i] <= Prev(slots, i, |mem|) <= |mem|
  }

  /** The items with all of their room. */
  function Rooms(mem: seq<Byte>, slots: seq<nat>, n: nat): (r: seq<seq<Byte>>)
    requires Roomy(mem, slots, n)
    ensures |r| == n
  {
    seq(n, i requires 0 <= i < n => mem[slots[i]..Prev(slots, i, |mem|)])
  }

  /** The loop over the items. */
  method FillIndex(words: array<nat>, slots: seq<nat>, ghost count: nat, start: nat, base: nat)
    requires count < |slots| && slots[count] == NULL && forall i :: 0 <= i < count ==> slots[i] != NULL && start <= slots[i]
    requires words.Length == count + 2
    modifies words
    ensures words[0] == old(words[0]) && words[count + 1] == 0
    ensures forall i :: 0 <= i < count ==> words[i + 1] == slots[i] - start + base
  {
    var i := 0;
    while slots[i] != NULL
      invariant i <= count && words[0] == old(words[0])
      invariant forall j :: 0 <= j < i ==> words[j + 1] == slots[j] - start + base
      decreases count - i
    {
      words[i + 1] := slots[i] - start + base;
      i := i + 1;
    }
    words[i + 1] := 0;
  }

  lemma StoredRoomy(mem: seq<Byte>, slots: seq<nat>, values: seq<seq<Byte>>, end: nat)
    requires Stored(mem, slots, values, end) && end <= |mem|
    ensures Roomy(mem, slots, |values|)
    ensures forall i :: 0 <= i < |values| ==> values[i] <= Rooms(mem, slots, |values|)[i]
    ensures forall i :: 0 <= i < |values| ==> Prev(slots, |values|, end) <= slots[i] <= |mem|
  {
    forall i | 0 <= i < |values| ensures slots[i] <= Prev(slots, i, |mem|) <= |mem| {
      assert slots[i] + |values[i]| <= Prev(slots, i, end);
      assert i > 0 ==> StoredAt(mem, slots[i - 1], values[i - 1]);
    }
    forall i | 0 <= i < |values| ensures values[i] <= Rooms(mem, slots, |values|)[i] {
      assert StoredAt(mem, slots[i], values[i]) && slots[i] + |values[i]| <= Prev(slots, i, end);
    }
    forall i | 0 <= i < |values| ensures Prev(slots, |values|, end) <= slots[i] {
      Lowest(slots, values, end, i);
    }
  }

  lemma {:induction false} TotalRooms(mem: seq<Byte>, slots: seq<nat>, n: nat)
    requires Roomy(mem, slots, n)
    ensures Total(Rooms(mem, slots, n)) == |mem| - Prev(slots, n, |mem|)
  {
    if n > 0 {
      TotalRooms(mem, slots, n - 1);
      RoomsNext(mem, slots, n - 1);
      hide Rooms;
    }
  }

  lemma RoomsNext(mem: seq<Byte>, slots: seq<nat>, n: nat)
    requires Roomy(mem, slots, n + 1)
    ensures Rooms(mem, slots, n + 1)[..n] == Rooms(mem, slots, n)
    ensures |Rooms(mem, slots, n + 1)[n]| == Prev(slots, n, |mem|) - slots[n]
  {
  }

  /** What Flatten writes. */
  lemma FlatRooms(mem: seq<Byte>, slots: seq<nat>, n: nat, start: nat, words: seq<nat>, data: seq<Byte>)
    requires Roomy(mem, slots, n) && 0 < n && start == slots[n - 1] && start <= |mem| && forall i :: 0 <= i < n ==> start <= slots[i]
    requires |words| == n + 2 && words[0] == WORD * (n + 2) + |mem| - start && words[n + 1] == 0
    requires forall i :: 0 <= i < n ==> words[i + 1] == slots[i] - start + WORD * (n + 2)
    requires |mem| - start <= |data| && data[..|mem| - start] == mem[start..]
    ensures Flat(words, data).Holds(Rooms(mem, slots, n))
  {
    var f, rooms := Flat(words, data), Rooms(mem, slots, n);
    forall i | 0 <= i < n ensures f.Leads(i, rooms[i]) {
      var lo, hi := slots[i], Prev(slots, i, |mem|);
      assert f.EndOf(i) == hi - start + f.Base();
      assert f.Slice(words[i + 1], f.EndOf(i)) == data[..|mem| - start][lo - start..hi - start] == mem[start..][lo - start..hi - start] == mem[lo..hi];
    }
  }

  lemma StoredPrefix(mem: seq<Byte>, slots: seq<nat>, slots': seq<nat>, values: seq<seq<Byte>>, values': seq<seq<Byte>>, end: nat)
    requires Stored(mem, slots, values, end) && values' <= values && |values'| <= |slots'|
    requires forall i :: 0 <= i < |values'| ==> slots'[i] == slots[i]
    ensures Stored(mem, slots', values', end)
  {
    hide StoredAt;
    forall i | 0 <= i < |values'| ensures slots'[i] + |values'[i]| <= Prev(slots', i, end) && StoredAt(mem, slots'[i], values'[i]) {
      assert slots[i] + |values[i]| <= Prev(slots, i, end);
      assert i > 0 ==> slots'[i - 1] == slots[i - 1];
    }
  }

  /** Pop undoes Add: index, both ends of the allocator and the values are as they were. */
  method AddAndPop(v: Vector, value: seq<Byte>) returns (r: nat)
    requires v.Valid()
    modifies v, v.mem
    ensures r != NULL ==>
              && v.Valid() && v.values == old(v.values) && v.slots == old(v.slots) && v.count == old(v.count) && v.last == old(v.last)
              && v.curpos == old(v.curpos) && v.endpos == old(v.endpos) && v.mem[v.endpos..] == old(v.mem[v.endpos..])
  {
    hide Stored;
    r := v.Add(value);
    if r != NULL {
      var p := v.Pop();
      assert v.values == old(v.values);
      assert v.slots == old(v.slots);
    }
  }

  /** What a vector reserves for the first n items. */
  function Room(items: seq<seq<Byte>>, n: nat): nat
    requires n <= |items|
  {
    if n == 0 then 0 else Room(items, n - 1) + Align(|items[n - 1]|)
  }

  lemma {:induction false} RoomGrows(items: seq<seq<Byte>>, m: nat, n: nat)
    requires m <= n <= |items|
    ensures Room(items, m) <= Room(items, n)
    decreases n
  {
    if m < n {
      RoomGrows(items, m, n - 1);
    }
  }

  /** A vector of this size has room for the items, their index and its NULL. */
  predicate Fits(items: seq<seq<Byte>>, n: nat, maxSize: nat, sizes: Sizes)
    requires n <= |items| && maxSize >= sizes.pack
  {
    sizes.First() + WORD * (n + 1) + Room(items, n) <= sizes.End(maxSize)
  }

  /** ci_flat_array_to_ci_vector_t: a vector with exactly the items of the flat array, exactly when they fit. */
  method Rebuild(f: Flat, ghost items: seq<seq<Byte>>, sizes: Sizes) returns (v: Vector?)
    requires f.Holds(items) && 0 < sizes.First() <= 1000
    ensures v != null ==> v.Valid() && v.values == items && fresh(v) && fresh(v.mem)
    ensures f.words != [] && (v != null <==> Fits(items, |items|, f.words[0] + 1024, sizes))
  {
    hide Stored, Flat.Holds, Flat.Item, Align;
    HoldsLength(f, items);
    v := new Vector(f.words[0] + 1024, sizes);
    var i := 0;
    ItemIs(f, items, 0);
    while f.Item(i).Some?
      invariant i <= |items| && f.InRange(i) && f.Item(i) == if i < |items| then Some(items[i]) else None
      invariant v.Valid() && fresh(v) && fresh(v.mem) && v.aligned && v.values == items[..i]
      invariant v.first == sizes.First() && v.end == sizes.End(f.words[0] + 1024) && v.endpos == v.end - Room(items, i)
      invariant i > 0 ==> Fits(items, i, f.words[0] + 1024, sizes)
      decreases |items| - i
    {
      var r := v.Add(f.Item(i).value);
      if r == NULL {
        RoomGrows(items, i + 1, |items|);
        return null;
      }
      assert items[..i] + [items[i]] == items[..i + 1];
      i := i + 1;
      ItemIs(f, items, i);
    }
    assert items[..i] == items;
  }

  /** How much rounding adds to the sizes of the items. */
  function Padding(items: seq<seq<Byte>>): nat
  {
    if items == [] then 0
    else Padding(items[..|items| - 1]) + (Align(|items[|items| - 1]|) - |items[|items| - 1]|)
  }

  lemma {:induction false} RoomIs(items: seq<seq<Byte>>, n: nat)
    requires n <= |items|
    ensures Room(items, n) == Total(items[..n]) + Padding(items[..n])
  {
    if n > 0 {
      RoomIs(items, n - 1);
      assert items[..n][..n - 1] == items[..n - 1];
    }
  }

  /** The 1024 spare bytes are enough as long as the structures and what rounding adds take no more. */
  lemma SpareIsEnough(items: seq<seq<Byte>>, size: nat, sizes: Sizes)
    requires size == WORD * (|items| + 2) + Total(items) && sizes.First() + Padding(items) <= 1024
    ensures Fits(items, |items|, size + 1024, sizes)
  {
    hide Align;
    RoomIs(items, |items|);
    assert items[..|items|] == items;
  }

  /** ci_cache_store_vector_val and ci_cache_read_vector_val: a vector put into a cache entry comes back with
      the same number of items and, item for item, the same bytes. */
  method StoreAndRead(v: Vector, words: array<nat>, data: array<Byte>, sizes: Sizes) returns (u: Vector?)
    requires v.Intact() && v.count > 0 && words.Length == v.count + 2 && data != v.mem && 0 < sizes.First() <= 1000
    modifies words, data
    ensures u != null ==> u.Valid() && u.values == v.Spans()
    ensures u == null <==>
            v.mem.Length - v.slots[v.count - 1] > data.Length ||
            !Fits(v.Spans(), v.count, WORD * (v.count + 2) + Total(v.Spans()) + 1024, sizes)
  {
    hide Stored, Flat.Holds, Fits, Total, Rooms;
    var size := v.Flatten(words, data);
    if size == 0 {
      return null;
    }
    var f := Flat(words[..], data[..]);
    HoldsDescends(f, v.Spans());
    HoldsLength(f, v.Spans());
    var ok := Check(words[..], v.count);
    if words[0] > WORD * words.Length + data.Length || !ok {
      return null;
    }
    u := Rebuild(f, v.Spans(), sizes);
  }

  lemma HoldsLength(f: Flat, items: seq<seq<Byte>>)
    requires f.Holds(items)
    ensures |f.words| == |items| + 2 && f.words[|items| + 1] == 0
    ensures items != [] ==> f.words[0] <= f.Size()
  {
    assert items != [] ==> f.Leads(0, items[0]);
  }
}
