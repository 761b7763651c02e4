/** ci_list_t used as a queue, and the queue of accepted connections built on it. Nodes are numbered; a node
    once allocated is on the list or on the trash list for good. */
module ConnectionQueue {

  const NULL: int := -1

  /** ci_list_item_t. */
  datatype Node = Node(next: int, item: nat)

  // ------------------------------------------------------------------ chains

  function First(s: seq<nat>): int { if s == [] then NULL else s[0] }

  function After(s: seq<nat>, i: nat): int { if i + 1 < |s| then s[i + 1] else NULL }

  predicate Within(mem: seq<Node>, s: seq<nat>) { forall i :: 0 <= i < |s| ==> s[i] < |mem| }

  /** Following next from head gives exactly the nodes s. */
  predicate Linked(mem: seq<Node>, head: int, s: seq<nat>)
  {
    head == First(s) && Within(mem, s) && forall i :: 0 <= i < |s| ==> mem[s[i]].next == After(s, i)
  }

  function Items(mem: seq<Node>, s: seq<nat>): seq<nat>
    requires Within(mem, s)
  {
    seq(|s|, i requires 0 <= i < |s| => mem[s[i]].item)
  }

  /** Changing a node elsewhere leaves a chain alone. */
  lemma LinkedFrame(mem: seq<Node>, mem': seq<Node>, head: int, s: seq<nat>)
    requires Linked(mem, head, s) && |mem| <= |mem'| && forall i :: 0 <= i < |s| ==> mem'[s[i]] == mem[s[i]]
    ensures Linked(mem', head, s) && Items(mem', s) == Items(mem, s)
  {
  }

  /** A node with no successor goes behind the last one. */
  lemma LinkedAppend(mem: seq<Node>, head: int, s: seq<nat>, x: nat, last: nat, mem': seq<Node>)
    requires Linked(mem, head, s) && s != [] && last == s[|s| - 1] && x < |mem| && mem[x].next == NULL && Distinct(s + [x])
    requires last < |mem| && mem' == mem[last := mem[last].(next := x)]
    ensures Linked(mem', head, s + [x]) && Items(mem', s + [x]) == Items(mem, s) + [mem[x].item]
  {
    var t := s + [x];
    forall i | 0 <= i < |t|
      ensures t[i] < |mem| && mem'[t[i]].next == After(t, i) && mem'[t[i]].item == mem[t[i]].item
    {
      if i < |s| - 1 {
        assert t[i] != t[|s| - 1] && mem[s[i]].next == After(s, i);
      } else if i == |s| {
        assert t[|s| - 1] != t[|s|];
      }
    }
    assert forall i :: 0 <= i < |s| ==> t[i] == s[i];
  }

  lemma LinkedOne(mem: seq<Node>, x: nat)
    requires x < |mem| && mem[x].next == NULL
    ensures Linked(mem, x, [x]) && Items(mem, [x]) == [mem[x].item]
  {
  }

  /** Behind the first node comes the rest. */
  lemma LinkedRest(mem: seq<Node>, head: int, s: seq<nat>)
    requires Linked(mem, head, s) && s != []
    ensures 0 <= head < |mem| && Linked(mem, mem[head].next, s[1..])
    ensures Items(mem, s) == [mem[head].item] + Items(mem, s[1..])
  {
    assert mem[s[0]].next == After(s, 0) == First(s[1..]);
    forall i | 0 <= i < |s| - 1 ensures s[1..][i] < |mem| && mem[s[1..][i]].next == After(s[1..], i) {
      assert mem[s[i + 1]].next == After(s, i + 1);
    }
  }

  /** A node whose successor is the head becomes the head. */
  lemma LinkedPush(mem: seq<Node>, head: int, s: seq<nat>, x: nat)
    requires Linked(mem, head, s) && x < |mem| && mem[x].next == head
    ensures Linked(mem, x, [x] + s)
  {
    var t := [x] + s;
    forall i | 0 <= i < |t| ensures t[i] < |mem| && mem[t[i]].next == After(t, i) {
      if i > 0 {
        assert mem[s[i - 1]].next == After(s, i - 1);
      }
    }
  }

  // ------------------------------------------------------------------ list and trash

  predicate Distinct(s: seq<nat>) { forall i, j :: 0 <= i < j < |s| ==> s[i] != s[j] }

  /** The list and the trash list are apart, and together they are all of the n nodes. */
  predicate Apart(live: seq<nat>, trash: seq<nat>, n: nat)
  {
    && Distinct(live) && Distinct(trash) && |live| + |trash| == n
    && (forall i, j :: 0 <= i < |live| && 0 <= j < |trash| ==> live[i] != trash[j])
    && (forall i :: 0 <= i < |live| ==> live[i] < n) && (forall j :: 0 <= j < |trash| ==> trash[j] < n)
  }

  lemma ApartTake(live: seq<nat>, trash: seq<nat>, n: nat)
    requires Apart(live, trash, n) && trash != []
    ensures Apart(live + [trash[0]], trash[1..], n)
  {
  }

  lemma ApartNew(live: seq<nat>, trash: seq<nat>, n: nat)
    requires Apart(live, trash, n)
    ensures Apart(live + [n], trash, n + 1)
  {
  }

  lemma ApartDrop(live: seq<nat>, trash: seq<nat>, n: nat)
    requires Apart(live, trash, n) && live != []
    ensures Apart(live[1..], [live[0]] + trash, n)
  {
  }

  // ------------------------------------------------------------------ steps of the list

  /** ci_list_pop moves the first node to the trash. */
  lemma Popped(mem: seq<Node>, items: int, trash: int, live: seq<nat>, free: seq<nat>, x: nat, mem': seq<Node>)
    requires Linked(mem, items, live) && Linked(mem, trash, free) && Apart(live, free, |mem|) && items != NULL && x == items
    requires x < |mem| && mem' == mem[x := mem[x].(next := trash)]
    ensures live != [] && x == live[0] && Linked(mem', mem[x].next, live[1..]) && Linked(mem', x, [x] + free)
    ensures Apart(live[1..], [x] + free, |mem'|)
    ensures Items(mem, live) == [mem[x].item] + Items(mem', live[1..])
    ensures mem[x].next == First(live[1..])
  {
    LinkedRest(mem, items, live);
    ApartDrop(live, free, |mem|);
    forall i | 0 <= i < |live| - 1 ensures mem'[live[1..][i]] == mem[live[1..][i]] {
      assert live[0] != live[i + 1];
    }
    LinkedFrame(mem, mem', mem[x].next, live[1..]);
    LinkedFrame(mem, mem', trash, free);
    LinkedPush(mem', trash, free, x);
  }

  /** A node out of the trash. */
  lemma Recycled(mem: seq<Node>, trash: int, live: seq<nat>, free: seq<nat>, data: nat, mem': seq<Node>)
    requires Linked(mem, trash, free) && Apart(live, free, |mem|) && 0 <= trash < |mem| && mem' == mem[trash := Node(NULL, data)]
    ensures free != [] && trash == free[0] && Linked(mem', mem[trash].next, free[1..]) && Apart(live + [trash], free[1..], |mem'|)
  {
    LinkedRest(mem, trash, free);
    ApartTake(live, free, |mem|);
    forall i | 0 <= i < |free| - 1 ensures mem'[free[1..][i]] == mem[free[1..][i]] {
      assert free[0] != free[i + 1];
    }
    LinkedFrame(mem, mem', mem[trash].next, free[1..]);
  }

  /** The nodes of the list are untouched by a change to node x, which is not among them. */
  lemma Untouched(mem: seq<Node>, mem': seq<Node>, head: int, live: seq<nat>, free: seq<nat>, x: nat)
    requires Linked(mem, head, live) && |mem| <= |mem'| && Apart(live + [x], free, |mem'|)
    requires forall y :: 0 <= y < |mem| && y != x ==> mem'[y] == mem[y]
    ensures Linked(mem', head, live) && Items(mem', live) == Items(mem, live)
  {
    var t := live + [x];
    forall i | 0 <= i < |live| ensures mem'[live[i]] == mem[live[i]] {
      assert t[i] != t[|live|];
    }
    LinkedFrame(mem, mem', head, live);
  }

  /** The new node x goes behind the last one; the trash does not notice. */
  lemma Appended(mem: seq<Node>, items: int, trash: int, live: seq<nat>, free: seq<nat>, x: nat, last: nat, mem': seq<Node>)
    requires Linked(mem, items, live) && Linked(mem, trash, free) && Apart(live + [x], free, |mem|)
    requires live != [] && last == live[|live| - 1] && last < |mem| && x < |mem| && mem[x].next == NULL
    requires mem' == mem[last := mem[last].(next := x)]
    ensures Linked(mem', items, live + [x]) && Linked(mem', trash, free)
    ensures Items(mem', live + [x]) == Items(mem, live) + [mem[x].item]
  {
    LinkedAppend(mem, items, live, x, last, mem');
    forall j | 0 <= j < |free| ensures mem'[free[j]] == mem[free[j]] {
      assert (live + [x])[|live| - 1] != free[j];
    }
    LinkedFrame(mem, mem', trash, free);
  }

  // ------------------------------------------------------------------ the list

  class List {
    var mem: seq<Node>
    var items: int
    var last: int
    var trash: int
    var cursor: int

    ghost var live: seq<nat>
    ghost var free: seq<nat>

    constructor ()
      ensures Valid() && Contents() == []
    {
      mem, items, last, trash, cursor := [], NULL, NULL, NULL, NULL;
      live, free := [], [];
    }

    ghost predicate Valid()
      reads this
    {
      && Linked(mem, items, live) && Linked(mem, trash, free) && Apart(live, free, |mem|)
      && last == (if live == [] then NULL else live[|live| - 1]) && (cursor == NULL || cursor in live)
    }

    /** The items in order. */
    ghost function Contents(): (s: seq<nat>)
      requires Valid()
      reads this
      ensures |s| == |live|
    {
      Items(mem, live)
    }

    lemma TrashFree()
      requires Valid()
      ensures trash == NULL <==> free == []
    {
    }

    lemma Ends()
      requires Valid()
      ensures last == NULL <==> live == []
      ensures last != NULL ==> last < |mem|
      ensures items == First(live) && items < |mem|
      ensures live != [] && last == items ==> live[1..] == []
      ensures live != [] && cursor != NULL && cursor != items ==> cursor in live[1..]
    {
    }

    /** list_alloc_item: a node from the trash, or a new one if the allocator has room. */
    method AllocItem(data: nat, room: bool) returns (x: int)
      requires Valid()
      modifies `mem, `trash, `free
      ensures x == NULL <==> old(free) == [] && !room
      ensures x == NULL ==> unchanged(this)
      ensures x != NULL ==> |old(mem)| <= |mem| && 0 <= x < |mem| && mem[x] == Node(NULL, data)
      ensures x != NULL ==> Linked(mem, trash, free) && Apart(live + [x], free, |mem|)
      ensures x != NULL ==> Linked(mem, items, live) && Items(mem, live) == old(Items(mem, live))
    {
      assert trash == NULL <==> free == [];
      hide Apart, Items;
      if trash != NULL {
        x := trash;
        Recycled(mem, trash, live, free, data, mem[x := Node(NULL, data)]);
        Untouched(mem, mem[x := Node(NULL, data)], items, live, free[1..], x);
        trash, mem, free := mem[trash].next, mem[x := Node(NULL, data)], free[1..];
      } else if room {
        x := |mem|;
        ApartNew(live, free, |mem|);
        Untouched(mem, mem + [Node(NULL, data)], items, live, free, x);
        mem := mem + [Node(NULL, data)];
      } else {
        x := NULL;
      }
    }

    /** ci_list_push_back. */
    method PushBack(data: nat, room: bool) returns (ok: bool)
      requires Valid()
      modifies this
      ensures Valid() && (ok <==> old(free) != [] || room)
      ensures Contents() == if ok then old(Contents()) + [data] else old(Contents())
    {
      hide Apart, Items, Linked;
      Ends();
      var x := AllocItem(data, room);
      if x == NULL {
        return false;
      }
      if last != NULL {
        Appended(mem, items, trash, live, free, x, last, mem[last := mem[last].(next := x)]);
        mem, last := mem[last := mem[last].(next := x)], x;
      } else {
        LinkedOne(mem, x);
        assert live + [x] == [x];
        items, last := x, x;
      }
      live := live + [x];
      ok := true;
    }

    /** ci_list_pop: the first item; its node goes to the trash. */
    method Pop() returns (found: bool, data: nat)
      requires Valid()
      modifies this
      ensures Valid() && (found <==> old(Contents()) != [])
      ensures found ==> old(Contents()) == [data] + Contents()
      ensures !found ==> unchanged(this)
    {
      hide Apart, Items, Linked;
      Ends();
      if items == NULL {
        return false, 0;
      }
      var x := items;
      Popped(mem, items, trash, live, free, x, mem[x := mem[x].(next := trash)]);
      if last == items {
        last, items, cursor := NULL, NULL, NULL;
      } else {
        if cursor == items {
          cursor := mem[items].next;
        }
        items := mem[items].next;
      }
      data := mem[x].item;
      mem, trash := mem[x := mem[x].(next := trash)], x;
      live, free := live[1..], [x] + free;
      found := true;
    }
  }

  // ------------------------------------------------------------------ the queue of connections

  class Queue {
    const list: List
    const warnSize: nat
    var used: nat

    constructor (size: nat)
      ensures Valid() && list.Contents() == [] && fresh(list) && warnSize == size
    {
      list := new List();
      used, warnSize := 0, size;
    }

    /** The list is in order and the count within the limit; it may be too high. */
    ghost predicate Counted()
      reads this, list
    {
      list.Valid() && |list.Contents()| <= used <= warnSize
    }

    /** The count is the length of the list. */
    ghost predicate Valid()
      reads this, list
    {
      Counted() && used == |list.Contents()|
    }

    /** put_to_queue. locks: the mutex can be locked; room: the list's allocator can serve a new node. The
        answer of the list is not looked at: without a node the connection is counted but not queued. */
    method Put(con: nat, locks: bool, room: bool) returns (r: int, found: bool)
      requires Counted()
      modifies this, list
      ensures Counted() && found == (old(list.free) != [] || room) && (r == -1 || r == 0 || r == 1)
      ensures (r == -1 <==> !locks) && (r == 0 <==> locks && old(used) == warnSize)
      ensures r != 1 ==> used == old(used) && list.Contents() == old(list.Contents())
      ensures r == 1 ==> used == old(used) + 1
      ensures r == 1 ==> list.Contents() == if found then old(list.Contents()) + [con] else old(list.Contents())
      ensures old(Valid()) ==> (Valid() <==> r != 1 || found)
    {
      hide Apart, Items, Linked;
      found := list.trash != NULL || room;
      list.TrashFree();
      if !locks {
        return -1, found;
      }
      if used == warnSize {
        return 0, found;
      }
      var ok := list.PushBack(con, room);
      used := used + 1;
      r := 1;
    }

    /** get_from_queue into the caller's variable, which holds was: the oldest connection, or, when the count is
        too high and the list empty, still what was there. */
    method Get(was: nat, locks: bool) returns (r: int, con: nat)
      requires Counted()
      modifies this, list
      ensures Counted() && (r == -1 || r == 0 || r == 1) && (old(Valid()) ==> Valid())
      ensures (r == -1 <==> !locks) && (r == 0 <==> locks && old(used) == 0)
      ensures r != 1 ==> used == old(used) && list.Contents() == old(list.Contents()) && con == was
      ensures r == 1 ==> used == old(used) - 1
      ensures r == 1 && old(list.Contents()) != [] ==> old(list.Contents()) == [con] + list.Contents()
      ensures r == 1 && old(list.Contents()) == [] ==> con == was && list.Contents() == []
    {
      hide Apart, Items, Linked;
      if !locks {
        return -1, was;
      }
      if used == 0 {
        return 0, was;
      }
      used := used - 1;
      var found;
      found, con := list.Pop();
      con := if found then con else was;
      r := 1;
    }
  }
}
