/** Flat arrays: one buffer with its size, a NULL-terminated index of byte positions and, from the rear, the
    items. The index is words of 8 bytes, the rest is bytes. */
module FlatArray {
  import opened Bytes

  const WORD: nat := 8

  /** words[0] is the size, words[1..] the index; data lies behind them. */
  datatype Flat = Flat(words: seq<nat>, data: seq<Byte>)
  {
    function Base(): nat { WORD * |words| }

    function Size(): nat { Base() + |data| }

    /** Where the item that starts at words[i + 1] ends. */
    function EndOf(i: nat): nat requires i < |words| { words[i] }

    /** The bytes at positions lo to hi. */
    function Slice(lo: nat, hi: nat): seq<Byte>
      requires Base() <= lo <= hi <= Size()
    {
      data[lo - Base()..hi - Base()]
    }

    /** The index entry of item i is one: NULL, or a range inside the buffer. */
    predicate InRange(i: nat)
    {
      i + 1 < |words| && (words[i + 1] != 0 ==> Base() <= words[i + 1] <= EndOf(i) <= Size())
    }

    /** ci_flat_array_item. */
    function Item(i: nat): Option<seq<Byte>>
      requires InRange(i)
    {
      if words[i + 1] == 0 then None else Some(Slice(words[i + 1], EndOf(i)))
    }

    /** Entry i leads to exactly these bytes. */
    predicate Leads(i: nat, item: seq<Byte>)
    {
      && i + 1 < |words| && Base() <= words[i + 1] && words[i + 1] + |item| == EndOf(i) <= Size()
      && Slice(words[i + 1], EndOf(i)) == item
    }

    /** The item lies at position p. */
    predicate Has(p: nat, item: seq<Byte>)
    {
      Base() <= p && p + |item| <= Size() && Slice(p, p + |item|) == item
    }

    /** The array holds exactly these items. */
    predicate Holds(items: seq<seq<Byte>>)
    {
      && |words| == |items| + 2 && words[|items| + 1] == 0
      && forall i :: 0 <= i < |items| ==> Leads(i, items[i])
    }
  }

  /** Every item comes back with its exact bytes and size, and then NULL. */
  lemma ItemIs(f: Flat, items: seq<seq<Byte>>, i: nat)
    requires f.Holds(items) && i <= |items|
    ensures f.InRange(i) && f.Item(i) == if i < |items| then Some(items[i]) else None
  {
    assert i < |items| ==> f.Leads(i, items[i]);
  }

  /** flat_required_size, without the index. */
  function Total(items: seq<seq<Byte>>): nat
  {
    if items == [] then 0 else Total(items[..|items| - 1]) + |items[|items| - 1]|
  }

  lemma {:induction false} TotalSplit(items: seq<seq<Byte>>, i: nat)
    requires i <= |items|
    ensures Total(items[..i]) <= Total(items)
  {
    if i == |items| {
      assert items[..i] == items;
    } else {
      TotalSplit(items[..|items| - 1], i);
      assert items[..|items| - 1][..i] == items[..i];
    }
  }

  // ------------------------------------------------------------------ ci_flat_array_check

  /** The index descends from the size to its NULL at word n + 1. */
  predicate Descends(words: seq<nat>, n: nat)
    requires n + 1 < |words|
  {
    forall i :: 1 <= i <= n ==> words[i] <= words[i - 1]
  }

  /** ci_flat_array_check; it looks behind the index of an array without items. */
  method Check(words: seq<nat>, ghost n: nat) returns (ok: bool)
    requires 1 <= n < |words| - 1 && words[n + 1] == 0 && forall i :: 1 <= i <= n ==> words[i] != 0
    ensures ok <==> Descends(words, n)
  {
    if words[1] > words[0] {
      return false;
    }
    var i := 1;
    while words[i + 1] != 0
      invariant 1 <= i <= n && forall j :: 1 <= j <= i ==> words[j] <= words[j - 1]
      decreases n - i
    {
      if words[i + 1] > words[i] {
        return false;
      }
      i := i + 1;
    }
    ok := true;
  }

  lemma HoldsDescends(f: Flat, items: seq<seq<Byte>>)
    requires f.Holds(items)
    ensures Descends(f.words, |items|) && forall i :: 1 <= i <= |items| ==> f.words[i] != 0
  {
    forall i | 1 <= i <= |items| ensures f.words[i] <= f.words[i - 1] && f.words[i] != 0 {
      assert f.Leads(i - 1, items[i - 1]);
    }
  }

  // ------------------------------------------------------------------ building

  /** The first n entries are set and lead to their items. */
  predicate Built(f: Flat, items: seq<seq<Byte>>, n: nat)
    requires n <= |items|
  {
    |f.words| == |items| + 2 && f.words[0] == f.Size() && forall i :: 0 <= i < n ==> f.Leads(i, items[i])
  }

  /** One more item, stored right below the last one, leaves the others in place. */
  lemma BuiltNext(f: Flat, items: seq<seq<Byte>>, n: nat, store: nat, g: Flat)
    requires n < |items| && Built(f, items, n) && store == f.words[n]
    requires f.Base() + |items[n]| <= store <= f.Size() && Above(f, n, store)
    requires |g.data| == |f.data| && g.words == f.words[n + 1 := store - |items[n]|]
    requires forall k :: 0 <= k < |f.data| ==>
               g.data[k] == if store - |items[n]| <= f.Base() + k < store then items[n][f.Base() + k - (store - |items[n]|)] else f.data[k]
    ensures Built(g, items, n + 1) && Above(g, n + 1, store - |items[n]|)
  {
    forall i | 0 <= i < n ensures g.Leads(i, items[i]) {
      assert f.Leads(i, items[i]) && f.words[i + 1] >= store;
      assert g.Slice(g.words[i + 1], g.EndOf(i)) == f.Slice(f.words[i + 1], f.EndOf(i));
    }
    assert g.Slice(store - |items[n]|, store) == items[n];
  }

  /** All entries so far are at or above store. */
  predicate Above(f: Flat, n: nat, store: nat)
    requires n < |f.words|
  {
    forall i :: 0 <= i <= n ==> f.words[i] >= store
  }

  /** flat_build, into a buffer that may be larger than required. */
  method Build(items: seq<seq<Byte>>, words: array<nat>, data: array<Byte>)
    requires words.Length == |items| + 2 && Total(items) <= data.Length
    modifies words, data
    ensures Flat(words[..], data[..]).Holds(items) && words[0] == Flat(words[..], data[..]).Size()
  {
    hide Flat.Leads, Above;
    var base := WORD * words.Length;
    words[0] := base + data.Length;
    var store := base + data.Length;
    assert Total(items[..0]) == 0;
    StartBuilt(Flat(words[..], data[..]), items);
    var i := 0;
    while i < |items|
      invariant i <= |items| && store == base + data.Length - Total(items[..i]) && words[i] == store
      invariant Built(Flat(words[..], data[..]), items, i) && Above(Flat(words[..], data[..]), i, store)
    {
      TotalNext(items, i);
      TotalSplit(items, i + 1);
      ghost var f := Flat(words[..], data[..]);
      ghost var was := store;
      store := store - |items[i]|;
      CopyIn(data, store - base, items[i]);
      words[i + 1] := store;
      BuiltNext(f, items, i, was, Flat(words[..], data[..]));
      i := i + 1;
    }
    ghost var f := Flat(words[..], data[..]);
    words[i + 1] := 0;
    LastNull(f, items, Flat(words[..], data[..]));
  }

  method CopyIn(data: array<Byte>, at: nat, item: seq<Byte>)
    requires at + |item| <= data.Length
    modifies data
    ensures forall k :: 0 <= k < data.Length ==> data[k] == if at <= k < at + |item| then item[k - at] else old(data[k])
  {
    forall k | 0 <= k < |item| {
      data[at + k] := item[k];
    }
  }

  lemma StartBuilt(f: Flat, items: seq<seq<Byte>>)
    requires |f.words| == |items| + 2 && f.words[0] == f.Size()
    ensures Built(f, items, 0) && Above(f, 0, f.words[0])
  {
  }

  lemma TotalNext(items: seq<seq<Byte>>, i: nat)
    requires i < |items|
    ensures Total(items[..i + 1]) == Total(items[..i]) + |items[i]|
  {
    assert items[..i + 1][..i] == items[..i];
  }

  lemma LastNull(f: Flat, items: seq<seq<Byte>>, g: Flat)
    requires Built(f, items, |items|) && g.data == f.data && g.words == f.words[|items| + 1 := 0]
    ensures g.Holds(items)
  {
    forall i | 0 <= i < |items| ensures g.Leads(i, items[i]) {
      assert f.Leads(i, items[i]);
    }
  }

  // ------------------------------------------------------------------ the pointer table

  lemma ItemsThere(f: Flat, items: seq<seq<Byte>>)
    requires f.Holds(items)
    ensures forall i :: 0 <= i < |items| ==> f.Has(f.words[i + 1], items[i])
    ensures |f.words| == |items| + 2 && f.words[|items| + 1] == 0
  {
    forall i | 0 <= i < |items| ensures f.Has(f.words[i + 1], items[i]) {
      assert f.Leads(i, items[i]);
    }
  }

  /** ci_flat_array_to_ppvoid: the index becomes, one word further down, a NULL-terminated table of pointers to
      the items. at is the address of the buffer. */
  method ToPointers(words: array<nat>, ghost data: seq<Byte>, ghost items: seq<seq<Byte>>, at: nat)
    requires Flat(words[..], data).Holds(items)
    modifies words
    ensures words[|items|] == 0
    ensures forall i :: 0 <= i < |items| ==> words[i] >= at && Flat(old(words[..]), data).Has(words[i] - at, items[i])
  {
    hide Flat.Has, Flat.Holds, Descends;
    ghost var f := Flat(words[..], data);
    HoldsDescends(f, items);
    ItemsThere(f, items);
    var i := 0;
    while words[i + 1] != 0
      invariant i <= |items|
      invariant forall j :: 0 <= j < i ==> words[j] == at + f.words[j + 1]
      invariant forall j :: i <= j < words.Length ==> words[j] == f.words[j]
      decreases |items| - i
    {
      words[i] := at + words[i + 1];
      i := i + 1;
    }
    words[i] := 0;
  }
}
