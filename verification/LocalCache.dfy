/** The local TTL cache of cache.c. Every entry lies in two intrusive lists: the age queue (qnext) and,
    while it holds a key, the chain of its hash (hnext). */
module TimedLog {
  import opened Bytes
  import opened Hashing

  /** A successful update. */
  datatype Update = Update(key: Key, val: seq<Byte>, time: int)

  /** The index of the latest of the first n updates with this key, or -1. */
  function Latest(log: seq<Update>, key: Key, n: nat): (r: int)
    requires n <= |log|
    ensures r >= 0 ==> r < n && log[r].key == key && forall j :: r < j < n ==> log[j].key != key
    ensures r < 0 ==> r == -1 && forall j :: 0 <= j < n ==> log[j].key != key
  {
    if n == 0 then -1 else if log[n - 1].key == key then n - 1 else Latest(log, key, n - 1)
  }

  /** Among the updates from index from on and before n: the latest whose key hashes to b, or -1. */
  function Prev(log: seq<Update>, size: nat, from: nat, n: nat, b: nat): (r: int)
    requires n <= |log|
    ensures r >= 0 ==> from <= r < n && HashOf(size, log[r].key) == b
    ensures r < 0 ==> r == -1
    ensures forall j :: from <= j < n && r < j ==> HashOf(size, log[j].key) != b
  {
    if n <= from then -1
    else if HashOf(size, log[n - 1].key) == b then n - 1
    else Prev(log, size, from, n - 1, b)
  }

  /** Prev does not see what is appended later. */
  lemma {:induction false} PrevAppend(log: seq<Update>, u: Update, size: nat, from: nat, n: nat, b: nat)
    requires n <= |log|
    ensures Prev(log + [u], size, from, n, b) == Prev(log, size, from, n, b)
  {
    if n > from {
      assert (log + [u])[n - 1] == log[n - 1];
      PrevAppend(log, u, size, from, n - 1, b);
    }
  }

  /** Appending an update makes it the newest of its hash and leaves the other hashes alone. */
  lemma PrevNext(log: seq<Update>, u: Update, size: nat, from: nat, b: nat)
    requires from <= |log|
    ensures Prev(log + [u], size, from, |log| + 1, b) ==
            if HashOf(size, u.key) == b then |log| else Prev(log, size, from, |log|, b)
  {
    PrevAppend(log, u, size, from, |log|, b);
  }

  /** Dropping the oldest update changes Prev only where it was the answer. */
  lemma PrevEvict(log: seq<Update>, size: nat, from: nat, n: nat, b: nat)
    requires from < n <= |log|
    ensures Prev(log, size, from + 1, n, b) ==
            if Prev(log, size, from, n, b) == from then -1 else Prev(log, size, from, n, b)
  {
    var r, q := Prev(log, size, from, n, b), Prev(log, size, from + 1, n, b);
    if r > from {
      assert q >= r;
    }
  }
}

module LocalCache {
  import opened Bytes
  import opened Hashing
  import opened TimedLog

  /** struct ci_cache_entry. Entries are numbered, links are numbers and NULL is -1. An entry without a
      key is free. */
  datatype Entry = Entry(hash: nat, time: int, key: Option<Key>, val: seq<Byte>, qnext: int, hnext: int)

  const NULL: int := -1

  /** The cache's memory: all entries, the bucket heads, and the ends of the age queue. */
  datatype Lists = Lists(mem: seq<Entry>, table: seq<int>, first: int, last: int)

  /** What the cache stands for: the successful updates (oldest first), the entry each was stored in, how
      many of them have been evicted, the free entries, which are the oldest, and the latest time seen. */
  datatype History = History(log: seq<Update>, slot: seq<nat>, gone: nat, free: seq<nat>, clock: int)
  {
    predicate Wf() { |slot| == |log| && gone <= |log| }

    /** The entries in age order. */
    function Queue(): seq<nat> requires Wf() { free + slot[gone..] }

    /** The entry of update k. */
    function SlotAt(k: int): int requires k < |slot| { if k < 0 then NULL else slot[k] }
  }

  /** The queue holds every entry once. */
  predicate Shape(c: Lists, h: History, size: nat)
  {
    && h.Wf() && |c.table| == size + 1 && |c.mem| >= 2 && |h.Queue()| == |c.mem|
    && (forall i :: 0 <= i < |h.free| ==> h.free[i] < |c.mem|)
    && (forall k :: h.gone <= k < |h.slot| ==> h.slot[k] < |c.mem|)
    && (forall i, j :: 0 <= i < j < |h.free| ==> h.free[i] != h.free[j])
    && (forall k, l :: h.gone <= k < l < |h.slot| ==> h.slot[k] != h.slot[l])
    && (forall i, k :: 0 <= i < |h.free| && h.gone <= k < |h.slot| ==> h.free[i] != h.slot[k])
  }

  /** first, last and qnext thread the queue. */
  predicate Threaded(c: Lists, q: seq<nat>)
  {
    && |q| >= 2 && (forall i :: 0 <= i < |q| ==> q[i] < |c.mem|)
    && c.first == q[0] && c.last == q[|q| - 1] && c.mem[c.last].qnext == NULL
    && forall i :: 0 <= i < |q| - 1 ==> c.mem[q[i]].qnext == q[i + 1]
  }

  predicate IsFree(e: Entry) { e.key == None && e.time == 0 && e.hash == 0 && e.hnext == NULL }

  predicate Holds(e: Entry, u: Update, size: nat)
  {
    e.key == Some(u.key) && e.val == u.val && e.time == u.time && e.hash == HashOf(size, u.key)
  }

  /** The entries hold what the log says. */
  predicate Stored(c: Lists, h: History, size: nat)
    requires Shape(c, h, size)
  {
    && (forall i :: 0 <= i < |h.free| ==> IsFree(c.mem[h.free[i]]))
    && (forall k :: h.gone <= k < |h.log| ==> Holds(c.mem[h.slot[k]], h.log[k], size))
  }

  /** Every chain runs through exactly the kept updates of its hash, newest first. */
  predicate Chained(c: Lists, h: History, size: nat)
    requires Shape(c, h, size)
  {
    && (forall b :: 0 <= b <= size ==> c.table[b] == h.SlotAt(Prev(h.log, size, h.gone, |h.log|, b)))
    && (forall k :: h.gone <= k < |h.log| ==>
          c.mem[h.slot[k]].hnext == h.SlotAt(Prev(h.log, size, h.gone, k, HashOf(size, h.log[k].key))))
  }

  /** The log is in time order and only updates of age ttl or more have been evicted. */
  predicate Timed(h: History, ttl: int)
    requires h.Wf()
  {
    && (forall i, j :: 0 <= i <= j < |h.log| ==> 0 <= h.log[i].time <= h.log[j].time)
    && (forall i :: 0 <= i < |h.log| ==> h.log[i].time <= h.clock)
    && (forall i :: 0 <= i < h.gone ==> h.log[i].time + ttl <= h.clock)
    && 0 <= h.clock
  }

  predicate Good(c: Lists, h: History, size: nat, ttl: int)
  {
    && Shape(c, h, size) && Threaded(c, h.Queue()) && Stored(c, h, size) && Chained(c, h, size) && Timed(h, ttl)
  }

  // ------------------------------------------------------------------ the oldest entry and the links to it

  /** A kept update lies in the oldest entry exactly if it is the oldest and no entry is free. */
  lemma InFirst(c: Lists, h: History, size: nat, j: int)
    requires Shape(c, h, size) && Threaded(c, h.Queue()) && -1 <= j < |h.log| && (j >= 0 ==> h.gone <= j)
    ensures h.SlotAt(j) == c.first <==> h.free == [] && j == h.gone
  {
    assert h.free == [] ==> h.Queue()[0] == h.slot[h.gone];
    assert h.free != [] ==> h.Queue()[0] == h.free[0];
  }

  /** The oldest entry, and the bucket it would be found in. */
  lemma FirstEntry(c: Lists, h: History, size: nat, ttl: int)
    requires Good(c, h, size, ttl)
    ensures 0 <= c.first < |c.mem| && c.mem[c.first].hnext == NULL && c.mem[c.first].hash < |c.table| == size + 1
    ensures h.Wf() && Shape(c, h, size) && Threaded(c, h.Queue())
    ensures h.free != [] ==> c.first == h.free[0]
    ensures h.free == [] ==> h.gone < |h.log| == |h.slot| && c.first == h.slot[h.gone]
                             && Holds(c.mem[c.first], h.log[h.gone], size)
    ensures c.table[c.mem[c.first].hash] >= NULL
    ensures c.table[c.mem[c.first].hash] == h.SlotAt(Prev(h.log, size, h.gone, |h.log|, c.mem[c.first].hash))
  {
    assert c.first == h.Queue()[0];
    if h.free == [] {
      assert Holds(c.mem[h.slot[h.gone]], h.log[h.gone], size);
    } else {
      assert IsFree(c.mem[h.free[0]]);
    }
  }

  /** The links that lead to the oldest entry: none if it is free; otherwise exactly one, and link i
      (or the bucket, for i == |log|) is it if the update before it in the chain is the oldest. */
  lemma LinksToFirst(c: Lists, h: History, size: nat, ttl: int, i: int)
    requires Good(c, h, size, ttl)
    requires h.free == [] ==> h.gone < |h.log| && h.gone < i <= |h.log|
    requires h.free == [] ==> var b := HashOf(size, h.log[h.gone].key);
                              Prev(h.log, size, h.gone, i, b) == h.gone && (i < |h.log| ==> HashOf(size, h.log[i].key) == b)
    ensures forall b :: 0 <= b <= size ==>
              (c.table[b] == c.first <==> h.free == [] && i == |h.log| && b == HashOf(size, h.log[h.gone].key))
    ensures forall k :: h.gone <= k < |h.log| ==> (c.mem[h.slot[k]].hnext == c.first <==> h.free == [] && k == i)
  {
    hide HashOf, Prev;
    forall b | 0 <= b <= size
      ensures c.table[b] == c.first <==> h.free == [] && i == |h.log| && b == HashOf(size, h.log[h.gone].key)
    {
      InFirst(c, h, size, Prev(h.log, size, h.gone, |h.log|, b));
    }
    forall k | h.gone <= k < |h.log| ensures c.mem[h.slot[k]].hnext == c.first <==> h.free == [] && k == i {
      InFirst(c, h, size, Prev(h.log, size, h.gone, k, HashOf(size, h.log[k].key)));
    }
  }

  // ------------------------------------------------------------------ eviction

  /** d is c with every link to the oldest entry ended and nothing else changed. */
  predicate Cut(c: Lists, d: Lists, h: History, size: nat)
    requires Shape(c, h, size)
  {
    && d == c.(mem := d.mem, table := d.table) && |d.mem| == |c.mem| && |d.table| == size + 1
    && (forall x :: 0 <= x < |c.mem| ==> d.mem[x] == c.mem[x].(hnext := d.mem[x].hnext))
    && (forall i :: 0 <= i < |h.free| ==> d.mem[h.free[i]].hnext == c.mem[h.free[i]].hnext)
    && (forall b :: 0 <= b <= size ==> d.table[b] == if c.table[b] == c.first then NULL else c.table[b])
    && (forall k :: h.gone <= k < |h.log| ==>
          d.mem[h.slot[k]].hnext == if c.mem[h.slot[k]].hnext == c.first then NULL else c.mem[h.slot[k]].hnext)
  }

  /** Cutting the one bucket that leads to the oldest entry. */
  lemma CutBucket(c: Lists, h: History, size: nat, b: nat)
    requires Shape(c, h, size) && b <= size
    requires forall x :: 0 <= x <= size ==> (c.table[x] == c.first <==> x == b)
    requires forall k :: h.gone <= k < |h.log| ==> c.mem[h.slot[k]].hnext != c.first
    ensures Cut(c, c.(table := c.table[b := NULL]), h, size)
  {
  }

  /** Cutting the one link that leads to the oldest entry. */
  lemma CutOne(c: Lists, h: History, size: nat, i: int)
    requires Shape(c, h, size) && h.gone <= i < |h.log|
    requires forall x :: 0 <= x <= size ==> c.table[x] != c.first
    requires forall k :: h.gone <= k < |h.log| ==> (c.mem[h.slot[k]].hnext == c.first <==> k == i)
    ensures Cut(c, c.(mem := c.mem[h.slot[i] := c.mem[h.slot[i]].(hnext := NULL)]), h, size)
  {
  }

  /** The oldest entry heads its chain: cut the bucket. */
  lemma CutHead(c: Lists, h: History, size: nat, ttl: int, b: nat)
    requires Good(c, h, size, ttl) && 0 <= c.first < |c.mem| && b == c.mem[c.first].hash < |c.table| && c.table[b] == c.first
    ensures h.Wf() && Cut(c, c.(table := c.table[b := c.mem[c.first].hnext]), h, size)
  {
    hide HashOf, Prev, Good, Shape, Threaded, Cut;
    FirstEntry(c, h, size, ttl);
    InFirst(c, h, size, Prev(h.log, size, h.gone, |h.log|, b));
    LinksToFirst(c, h, size, ttl, |h.log|);
    CutBucket(c, h, size, b);
  }

  /** It comes after update i's entry: cut that link. */
  lemma CutLink(c: Lists, h: History, size: nat, ttl: int, i: int)
    requires Good(c, h, size, ttl) && h.free == [] && h.gone < i < |h.log| && c.mem[h.slot[i]].hnext == c.first
    requires var b := HashOf(size, h.log[h.gone].key);
             Prev(h.log, size, h.gone, i, b) == h.gone && HashOf(size, h.log[i].key) == b
    requires 0 <= c.first < |c.mem|
    ensures Cut(c, c.(mem := c.mem[h.slot[i] := c.mem[h.slot[i]].(hnext := c.mem[c.first].hnext)]), h, size)
  {
    hide HashOf, Prev, Good, Shape, Threaded, Cut;
    FirstEntry(c, h, size, ttl);
    LinksToFirst(c, h, size, ttl, i);
    CutOne(c, h, size, i);
  }

  /** It is free: there is nothing to cut. */
  lemma CutNothing(c: Lists, h: History, size: nat, ttl: int)
    requires Good(c, h, size, ttl) && h.free != []
    ensures Cut(c, c, h, size)
  {
    LinksToFirst(c, h, size, ttl, 0);
    hide HashOf, Prev, Chained, Stored, Threaded, Timed;
  }

  /** The oldest entry without its contents. */
  function Emptied(d: Lists): Lists
    requires 0 <= d.first < |d.mem|
  {
    d.(mem := d.mem[d.first := d.mem[d.first].(hash := 0, time := 0, key := None, val := [], hnext := NULL)])
  }

  /** The history after the oldest entry was emptied. */
  function Evicted(h: History, first: nat, now: int): History
    requires h.Wf() && (h.free == [] ==> h.gone < |h.log|)
  {
    if h.free == [] then h.(gone := h.gone + 1, free := [first], clock := now) else h.(clock := now)
  }

  lemma EvictedShape(c: Lists, d: Lists, h: History, size: nat, now: int)
    requires Shape(c, h, size) && 0 <= c.first < |c.mem|
    requires d.first == c.first && |d.mem| == |c.mem| && |d.table| == |c.table|
    requires h.free == [] ==> h.gone < |h.log| && c.first == h.slot[h.gone]
    ensures Shape(Emptied(d), Evicted(h, c.first, now), size)
    ensures Evicted(h, c.first, now).Queue() == h.Queue()
  {
    if h.free == [] {
      assert h.slot[h.gone..] == [h.slot[h.gone]] + h.slot[h.gone + 1..];
    }
  }

  lemma EvictedBucket(c: Lists, d: Lists, h: History, size: nat, now: int, b: nat)
    requires Shape(c, h, size) && Threaded(c, h.Queue()) && Cut(c, d, h, size) && b <= size
    requires c.table[b] == h.SlotAt(Prev(h.log, size, h.gone, |h.log|, b))
    requires h.free == [] ==> h.gone < |h.log|
    ensures var h' := Evicted(h, c.first, now);
            d.table[b] == h'.SlotAt(Prev(h.log, size, h'.gone, |h.log|, b))
  {
    hide HashOf, Prev;
    InFirst(c, h, size, Prev(h.log, size, h.gone, |h.log|, b));
    if h.free == [] {
      PrevEvict(h.log, size, h.gone, |h.log|, b);
    }
  }

  lemma EvictedLink(c: Lists, d: Lists, h: History, size: nat, now: int, k: nat)
    requires Shape(c, h, size) && Threaded(c, h.Queue()) && Cut(c, d, h, size) && 0 <= c.first < |c.mem|
    requires h.free == [] ==> h.gone < |h.log|
    requires Evicted(h, c.first, now).gone <= k < |h.log|
    requires c.mem[h.slot[k]].hnext == h.SlotAt(Prev(h.log, size, h.gone, k, HashOf(size, h.log[k].key)))
    ensures var h' := Evicted(h, c.first, now);
            Emptied(d).mem[h.slot[k]].hnext == h'.SlotAt(Prev(h.log, size, h'.gone, k, HashOf(size, h.log[k].key)))
  {
    hide HashOf, Prev;
    var b := HashOf(size, h.log[k].key);
    InFirst(c, h, size, k);
    InFirst(c, h, size, Prev(h.log, size, h.gone, k, b));
    if h.free == [] {
      PrevEvict(h.log, size, h.gone, k, b);
    }
  }

  lemma EvictedChains(c: Lists, d: Lists, h: History, size: nat, ttl: int, now: int)
    requires Good(c, h, size, ttl) && Cut(c, d, h, size) && 0 <= c.first < |c.mem|
    requires h.free == [] ==> h.gone < |h.log|
    requires Shape(Emptied(d), Evicted(h, c.first, now), size)
    ensures Chained(Emptied(d), Evicted(h, c.first, now), size)
  {
    assert d.first == c.first && |d.mem| == |c.mem|;
    hide HashOf, Prev, Cut, Threaded, Stored, Timed;
    var h', d' := Evicted(h, c.first, now), Emptied(d);
    forall b | 0 <= b <= size ensures d'.table[b] == h'.SlotAt(Prev(h.log, size, h'.gone, |h.log|, b)) {
      EvictedBucket(c, d, h, size, now, b);
    }
    forall k | h'.gone <= k < |h.log|
      ensures d'.mem[h.slot[k]].hnext == h'.SlotAt(Prev(h.log, size, h'.gone, k, HashOf(size, h.log[k].key)))
    {
      EvictedLink(c, d, h, size, now, k);
    }
  }

  lemma EvictedStored(c: Lists, d: Lists, h: History, size: nat, ttl: int, now: int)
    requires Good(c, h, size, ttl) && Cut(c, d, h, size) && 0 <= c.first < |c.mem|
    requires h.free == [] ==> h.gone < |h.log|
    requires Shape(Emptied(d), Evicted(h, c.first, now), size)
    ensures Stored(Emptied(d), Evicted(h, c.first, now), size)
  {
    hide HashOf, Prev, Chained, Timed;
    var h', d' := Evicted(h, c.first, now), Emptied(d);
    forall k | h'.gone <= k < |h.log| ensures Holds(d'.mem[h.slot[k]], h.log[k], size) {
      InFirst(c, h, size, k);
      assert Holds(c.mem[h.slot[k]], h.log[k], size);
    }
  }

  lemma EvictedThreaded(c: Lists, d: Lists, h: History, size: nat)
    requires Shape(c, h, size) && Threaded(c, h.Queue()) && Cut(c, d, h, size) && 0 <= c.first < |c.mem|
    ensures Threaded(Emptied(d), h.Queue())
  {
    var d' := Emptied(d);
    assert forall x :: 0 <= x < |c.mem| ==> d'.mem[x].qnext == c.mem[x].qnext;
  }

  lemma EvictedTimed(c: Lists, h: History, size: nat, ttl: int, now: int)
    requires Good(c, h, size, ttl) && 0 <= c.first < |c.mem| && now - c.mem[c.first].time >= ttl && h.clock <= now
    requires h.free == [] ==> h.gone < |h.log| && Holds(c.mem[c.first], h.log[h.gone], size)
    ensures Evicted(h, c.first, now).Wf() && Timed(Evicted(h, c.first, now), ttl)
  {
    hide HashOf, Prev, Chained, Threaded, Stored;
    assert h.Wf();
  }

  /** Emptying the oldest entry once it has expired and is off its chain keeps the cache good. */
  lemma EvictedGood(c: Lists, d: Lists, h: History, size: nat, ttl: int, now: int)
    requires Good(c, h, size, ttl) && Cut(c, d, h, size)
    requires 0 <= c.first < |c.mem| && now - c.mem[c.first].time >= ttl && h.clock <= now
    ensures h.free == [] ==> h.gone < |h.log|
    ensures var h' := Evicted(h, c.first, now);
            Good(Emptied(d), h', size, ttl) && h'.Queue() == h.Queue() && h'.free != [] && h'.free[0] == c.first
  {
    FirstEntry(c, h, size, ttl);
    hide HashOf, Prev, Chained, Threaded, Stored, Timed;
    EvictedShape(c, d, h, size, now);
    EvictedChains(c, d, h, size, ttl, now);
    EvictedStored(c, d, h, size, ttl, now);
    EvictedThreaded(c, d, h, size);
    EvictedTimed(c, h, size, ttl, now);
  }

  // ------------------------------------------------------------------ storing

  /** The oldest entry filled with u, moved to the end of the queue and to the front of its chain. */
  function Filled(c: Lists, u: Update, size: nat): (r: Lists)
    requires 0 <= c.first < |c.mem| && 0 <= c.last < |c.mem| && |c.table| == size + 1
  {
    var b := HashOf(size, u.key);
    var e := Entry(b, u.time, Some(u.key), u.val, NULL, c.table[b]);
    Lists(c.mem[c.last := c.mem[c.last].(qnext := c.first)][c.first := e], c.table[b := c.first],
          c.mem[c.first].qnext, c.first)
  }

  function Recorded(h: History, u: Update): History
    requires h.free != []
  {
    History(h.log + [u], h.slot + [h.free[0]], h.gone, h.free[1..], u.time)
  }

  lemma StoredQueue(c: Lists, h: History, size: nat, ttl: int, u: Update)
    requires Good(c, h, size, ttl) && h.free != []
    ensures Recorded(h, u).Wf() && Recorded(h, u).Queue() == h.Queue()[1..] + [h.free[0]]
  {
    assert (h.slot + [h.free[0]])[h.gone..] == h.slot[h.gone..] + [h.free[0]];
    assert h.Queue()[1..] == h.free[1..] + h.slot[h.gone..];
  }

  lemma StoredShape(c: Lists, h: History, size: nat, ttl: int, u: Update)
    requires Good(c, h, size, ttl) && h.free != [] && c.first == h.free[0] && 0 <= c.last < |c.mem|
    ensures Shape(Filled(c, u, size), Recorded(h, u), size)
  {
    hide HashOf, Prev, Stored, Chained, Timed, Threaded;
    StoredQueue(c, h, size, ttl, u);
    var f, h' := h.free, Recorded(h, u);
    assert h'.free == f[1..] && h'.slot == h.slot + [f[0]];
    assert forall i :: 0 <= i < |f| - 1 ==> h'.free[i] == f[i + 1];
  }

  lemma QueueDistinct(c: Lists, h: History, size: nat)
    requires Shape(c, h, size)
    ensures forall i, j :: 0 <= i < j < |h.Queue()| ==> h.Queue()[i] != h.Queue()[j]
  {
  }

  lemma StoredThreaded(c: Lists, h: History, size: nat, ttl: int, u: Update)
    requires Good(c, h, size, ttl) && h.free != [] && c.first == h.free[0] && 0 <= c.last < |c.mem|
    ensures Recorded(h, u).Wf() && Threaded(Filled(c, u, size), Recorded(h, u).Queue())
  {
    hide HashOf, Prev, Stored, Chained, Timed;
    StoredQueue(c, h, size, ttl, u);
    QueueDistinct(c, h, size);
    var q, q', d := h.Queue(), Recorded(h, u).Queue(), Filled(c, u, size);
    assert q[0] == c.first;
    assert forall i :: 0 <= i < |q| - 1 ==> q'[i] == q[i + 1];
  }

  lemma StoredChained(c: Lists, h: History, size: nat, u: Update)
    requires Shape(c, h, size) && Chained(c, h, size)
    requires h.free != [] && c.first == h.free[0] && 0 <= c.last < |c.mem|
    requires Shape(Filled(c, u, size), Recorded(h, u), size)
    ensures Chained(Filled(c, u, size), Recorded(h, u), size)
  {
    hide HashOf, Prev;
    var h', d := Recorded(h, u), Filled(c, u, size);
    forall b | 0 <= b <= size ensures d.table[b] == h'.SlotAt(Prev(h'.log, size, h.gone, |h'.log|, b)) {
      PrevNext(h.log, u, size, h.gone, b);
    }
    forall k | h.gone <= k < |h'.log|
      ensures d.mem[h'.slot[k]].hnext == h'.SlotAt(Prev(h'.log, size, h.gone, k, HashOf(size, h'.log[k].key)))
    {
      PrevAppend(h.log, u, size, h.gone, k, HashOf(size, h'.log[k].key));
      assert k < |h.log| ==> h'.slot[k] == h.slot[k] && h'.log[k] == h.log[k];
    }
  }

  lemma StoredStored(c: Lists, h: History, size: nat, u: Update)
    requires Shape(c, h, size) && Stored(c, h, size)
    requires h.free != [] && c.first == h.free[0] && 0 <= c.last < |c.mem|
    requires Shape(Filled(c, u, size), Recorded(h, u), size)
    ensures Stored(Filled(c, u, size), Recorded(h, u), size)
  {
    hide HashOf;
    var h', d := Recorded(h, u), Filled(c, u, size);
    forall k | h.gone <= k < |h'.log| ensures Holds(d.mem[h'.slot[k]], h'.log[k], size) {
      assert k < |h.log| ==> h'.slot[k] == h.slot[k] && h'.log[k] == h.log[k] && Holds(c.mem[h.slot[k]], h.log[k], size);
    }
    forall i | 0 <= i < |h'.free| ensures IsFree(d.mem[h'.free[i]]) {
      assert h'.free[i] == h.free[i + 1] && IsFree(c.mem[h.free[i + 1]]);
    }
  }

  lemma StoredTimed(h: History, ttl: int, u: Update)
    requires h.Wf() && Timed(h, ttl) && h.free != [] && u.time == h.clock
    ensures Recorded(h, u).Wf() && Timed(Recorded(h, u), ttl)
  {
  }

  /** Filling a free oldest entry keeps the cache good. */
  lemma StoredGood(c: Lists, h: History, size: nat, ttl: int, u: Update)
    requires Good(c, h, size, ttl) && h.free != [] && c.first == h.free[0] && 0 <= c.last < |c.mem|
    requires u.time == h.clock
    ensures Good(Filled(c, u, size), Recorded(h, u), size, ttl)
    ensures Recorded(h, u).Queue() == h.Queue()[1..] + [h.Queue()[0]]
  {
    StoredQueue(c, h, size, ttl, u);
    hide HashOf, Prev, Chained, Threaded, Stored, Timed;
    StoredTimed(h, ttl, u);
    StoredShape(c, h, size, ttl, u);
    StoredThreaded(c, h, size, ttl, u);
    StoredChained(c, h, size, u);
    StoredStored(c, h, size, u);
  }

  // ------------------------------------------------------------------ the cache

  /** The queue of a new cache. */
  function Numbers(n: nat): (q: seq<nat>)
    ensures |q| == n && forall i :: 0 <= i < n ==> q[i] == i
  {
    if n == 0 then [] else Numbers(n - 1) + [n - 1]
  }

  class Cache {
    const ttl: int
    const size: nat           // hash_table_size
    var mem: seq<Entry>
    var table: seq<int>       // hash_table
    var first: int            // first_queue_entry
    var last: int             // last_queue_entry
    ghost var h: History

    ghost function Memory(): Lists
      reads this
    {
      Lists(mem, table, first, last)
    }

    ghost predicate Valid()
      reads this
    {
      Good(Memory(), h, size, ttl)
    }

    /** ci_local_cache_init with items entries. The invariant takes two of them. */
    constructor (items: nat, ttl: int)
      requires items >= 1
      ensures (Valid() <==> items >= 2) && h.log == [] && h.clock == 0 && this.ttl == ttl && |mem| == items
      ensures h.Wf() && h.Queue() == Numbers(items)
      ensures items == 1 ==> Lonely(Memory(), size)
    {
      this.ttl := ttl;
      var entries := [Entry(0, 0, None, [], NULL, NULL)];
      for i := 1 to items
        invariant |entries| == i
        invariant forall j :: 0 <= j < i ==> IsFree(entries[j]) && entries[j].qnext == if j < i - 1 then j + 1 else NULL
      {
        entries := entries[i - 1 := entries[i - 1].(qnext := i)] + [Entry(0, 0, None, [], NULL, NULL)];
      }
      mem, first, last := entries, 0, items - 1;
      var n := TableSize(items);
      size := n;
      table := seq(n + 1, _ => NULL);
      h := History([], [], 0, Numbers(items), 0);
    }

    /** Walk the chain of the key's hash: the entry of the key's latest update, if it is still kept. */
    method Find(key: Key) returns (e: int, ghost k: int)
      requires Valid()
      ensures -1 <= k < |h.log| && h.Wf() && e == h.SlotAt(k) && e < |mem|
      ensures k >= 0 ==> h.gone <= k && k == Latest(h.log, key, |h.log|) && e >= 0 && Holds(mem[e], h.log[k], size)
      ensures k < 0 ==> Latest(h.log, key, |h.log|) < h.gone
    {
      hide HashOf, Prev, Latest, Threaded, Timed;
      var hash := HashCompute(size, key);
      e := table[hash];
      k := Prev(h.log, size, h.gone, |h.log|, hash);
      while e != NULL && mem[e].key != Some(key)
        invariant -1 <= k < |h.log| && (k >= 0 ==> h.gone <= k && HashOf(size, h.log[k].key) == hash)
        invariant e == h.SlotAt(k)
        invariant forall j :: h.gone <= j < |h.log| && k < j ==> h.log[j].key != key
        decreases k
      {
        assert Holds(mem[h.slot[k]], h.log[k], size);
        e := mem[e].hnext;
        k := Prev(h.log, size, h.gone, k, hash);
      }
      assert k >= 0 ==> Holds(mem[h.slot[k]], h.log[k], size);
    }

    /** ci_local_cache_search: a hit carries the value of the key's latest successful update, at most ttl
        old, and a key whose latest successful update is younger than ttl always hits. */
    method Search(key: Key, now: int) returns (r: Option<seq<Byte>>)
      requires Valid() && h.clock <= now
      ensures var k := Latest(h.log, key, |h.log|);
              && (r.Some? ==> k >= 0 && r.value == h.log[k].val && now - h.log[k].time <= ttl)
              && (k >= 0 && now - h.log[k].time < ttl ==> r.Some?)
    {
      hide HashOf, Prev, Latest, Threaded, Chained, Stored;
      var e, k := Find(key);
      if e == NULL {
        return None;
      }
      r := if now - mem[e].time > ttl then None else Some(mem[e].val);
    }

    /** The entry in front of the oldest one on its chain. */
    method FindLink(start: nat) returns (tmp: nat, ghost i: int)
      requires Valid() && 0 <= first < |mem| && mem[first].hash < |table| && start == table[mem[first].hash] != first
      ensures h.Wf() && h.gone <= i < |h.log| && tmp == h.slot[i] && tmp < |mem|
      ensures mem[tmp].hnext == if h.free == [] then first else NULL
      ensures h.free == [] ==> h.gone < i && Prev(h.log, size, h.gone, i, HashOf(size, h.log[h.gone].key)) == h.gone
                               && HashOf(size, h.log[i].key) == HashOf(size, h.log[h.gone].key)
    {
      ghost var c := Memory();
      FirstEntry(c, h, size, ttl);
      hide HashOf, Prev, Threaded, Timed;
      var b := mem[first].hash;
      tmp := start;
      i := Prev(h.log, size, h.gone, |h.log|, b);
      while mem[tmp].hnext != NULL && first != mem[tmp].hnext
        invariant h.gone <= i < |h.log| && tmp == h.slot[i] && HashOf(size, h.log[i].key) == b && first != tmp
        decreases i
      {
        i := Prev(h.log, size, h.gone, i, b);
        tmp := mem[tmp].hnext;
      }
      InFirst(c, h, size, i);
      InFirst(c, h, size, Prev(h.log, size, h.gone, i, b));
    }

    /** The unlinking step of ci_local_cache_update. */
    method UnlinkFirst()
      requires Valid()
      modifies `mem, `table
      ensures Shape(old(Memory()), h, size) && Cut(old(Memory()), Memory(), h, size)
      ensures 0 <= first < |mem| == old(|mem|)
    {
      hide HashOf, Prev, Good, Shape, Cut, Threaded, Holds;
      ghost var c := Memory();
      FirstEntry(c, h, size, ttl);
      var b := mem[first].hash;
      var tmp := table[b];
      if tmp == first {
        CutHead(c, h, size, ttl, b);
        table := table[b := mem[tmp].hnext];
      } else if tmp != NULL {
        ghost var i;
        tmp, i := FindLink(tmp);
        if mem[tmp].hnext != NULL {
          CutLink(c, h, size, ttl, i);
          mem := mem[tmp := mem[tmp].(hnext := mem[mem[tmp].hnext].hnext)];
        } else {
          CutNothing(c, h, size, ttl);
        }
      } else {
        CutNothing(c, h, size, ttl);
      }
    }

    /** Fill the oldest entry, which is free, and make it the newest of the queue and of its chain. */
    method StoreFirst(key: Key, val: seq<Byte>, hash: nat, now: int)
      requires Valid() && h.free != [] && h.free[0] == first && h.clock == now && hash == HashOf(size, key)
      modifies this
      ensures Valid() && |mem| == old(|mem|) && h == Recorded(old(h), TimedLog.Update(key, val, now))
      ensures old(h).Wf() && h.Queue() == old(h.Queue())[1..] + [old(h.Queue())[0]]
    {
      hide Good, HashOf, Threaded;
      ghost var c, u := Memory(), TimedLog.Update(key, val, now);
      Ends(c, h, size, ttl);
      StoredGood(c, h, size, ttl, u);
      var e := first;
      mem := mem[e := mem[e].(key := Some(key), val := val, hash := hash, time := now)];
      first := mem[first].qnext;
      mem := mem[last := mem[last].(qnext := e)];
      last := e;
      mem := mem[e := mem[e].(qnext := NULL, hnext := table[hash])];
      table := table[hash := e];
      h := Recorded(h, u);
      assert Memory() == Filled(c, u, size);
    }

    /** ci_local_cache_update; keyAlloc and valAlloc say whether the allocator serves the key and the value.
        It succeeds exactly when the oldest entry has expired and the memory is there. */
    method Update(key: Key, val: seq<Byte>, now: int, keyAlloc: bool, valAlloc: bool) returns (ok: bool)
      requires Valid() && h.clock <= now && 0 <= first < |mem|
      modifies this
      ensures Valid() && h.clock == now && |mem| == old(|mem|)
      ensures ok <==> now - old(mem[first].time) >= ttl && keyAlloc && (val == [] || valAlloc)
      ensures h.log == if ok then old(h.log) + [TimedLog.Update(key, val, now)] else old(h.log)
      ensures old(h).Wf() && h.Queue() == if ok then old(h.Queue())[1..] + [old(h.Queue())[0]] else old(h.Queue())
    {
      hide Good, Threaded, HashOf, Cut;
      var hash := HashCompute(size, key);
      if now - mem[first].time < ttl {
        Later(Memory(), h, size, ttl, now);
        h := h.(clock := now);
        return false;
      }
      UnlinkFirst();
      EvictedGood(old(Memory()), Memory(), h, size, ttl, now);
      mem := mem[first := mem[first].(hash := 0, time := 0, key := None, val := [], hnext := NULL)];
      h := Evicted(h, first, now);
      ok := keyAlloc && (val == [] || valAlloc);
      if ok {
        StoreFirst(key, val, hash, now);
      }
    }
  }

  /** A cache of one entry that has not been used. */
  predicate Lonely(c: Lists, size: nat)
  {
    |c.mem| == 1 && c.first == c.last == 0 && IsFree(c.mem[0]) && c.mem[0].qnext == NULL && |c.table| == size + 1
  }

  /** With a single entry the queue is lost by the first success: the entry is found by its key, but the head
      of the queue is the old entry's successor, and there is none, so that no later update has an entry. */
  lemma OneEntryLost(c: Lists, u: Update, size: nat)
    requires Lonely(c, size)
    ensures var d := Filled(c, u, size);
            && d.first == NULL && d.last == 0 && d.mem[0].qnext == NULL
            && d.table[HashOf(size, u.key)] == 0 && Holds(d.mem[0], u, size)
  {
    hide HashOf;
  }

  /** A later clock changes nothing. */
  lemma Later(c: Lists, h: History, size: nat, ttl: int, now: int)
    requires Good(c, h, size, ttl) && h.clock <= now
    ensures Good(c, h.(clock := now), size, ttl) && h.Wf() && h.(clock := now).Queue() == h.Queue()
  {
    hide HashOf, Prev;
  }

  lemma Ends(c: Lists, h: History, size: nat, ttl: int)
    requires Good(c, h, size, ttl)
    ensures 0 <= c.first < |c.mem| && 0 <= c.last < |c.mem| && c.first != c.last && |c.table| == size + 1 && h.Wf()
  {
    QueueDistinct(c, h, size);
  }
}
