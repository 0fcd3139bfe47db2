/** The doubly linked pools of server/pool.c. */
module Pool {

  /** `pool_item_t`; `info` stands for the work structure that hangs on it. */
  class Item {
    const info: nat
    var prev: Item?
    var next: Item?

    constructor (info: nat)
      ensures this.info == info
    {
      this.info := info;
      prev, next := null, null;
    }
  }

  /** The items of a pool from head to tail are `s`: links and ends spell it out, and no item occurs twice. */
  ghost predicate Chain(s: seq<Item>, head: Item?, tail: Item?)
    reads s
  {
    && (forall i, j :: 0 <= i < j < |s| ==> s[i] != s[j])
    && (s == [] ==> head == null && tail == null)
    && (s != [] ==> head == s[0] && tail == s[|s| - 1] && s[0].prev == null && s[|s| - 1].next == null)
    && (forall i :: 0 <= i < |s| - 1 ==> s[i].next == s[i + 1])
    && (forall i :: 0 < i < |s| ==> s[i].prev == s[i - 1])
  }

  function Without<T>(s: seq<T>, k: nat): seq<T>
    requires k < |s|
  {
    s[..k] + s[k + 1..]
  }

  /** `pool_t`. */
  class List {
    var size: int
    var head: Item?
    var tail: Item?
    ghost var items: seq<Item>

    ghost predicate Valid()
      reads this, items
    {
      size == |items| && Chain(items, head, tail)
    }

    /** `pool_new`. */
    constructor ()
      ensures Valid() && items == []
    {
      size, head, tail, items := 0, null, null, [];
    }

    /** `pool_add` appends at the tail. */
    method Add(item: Item)
      requires Valid() && item !in items
      modifies this, items, item
      ensures Valid() && items == old(items) + [item]
    {
      if size == 0 {
        tail, head := item, item;
        item.next, item.prev := null, null;
      } else {
        tail.next := item;
        item.prev := tail;
        item.next := null;
        tail := item;
      }
      size := size + 1;
      items := items + [item];
    }

    /** `pool_pop` takes the item at the tail, or nothing from an empty pool. */
    method Pop() returns (item: Item?)
      requires Valid()
      modifies this, items
      ensures Valid()
      ensures old(items) == [] ==> item == null && items == []
      ensures old(items) != [] ==>
          item != null && old(items) == items + [item] && item.next == null && item.prev == null
    {
      if size == 0 {
        return null;
      }
      item := tail;
      assert item == items[|items| - 1] && (|items| > 1 ==> item.prev == items[|items| - 2]);
      if item != head {
        item.prev.next := item.next;
        tail := item.prev;
      } else {
        head, tail := null, null;
      }
      item.next, item.prev := null, null;
      size := size - 1;
      items := items[..|items| - 1];
    }

    /** The branches of `pool_rm_item` for the two ends. */
    method UnlinkEnd(item: Item, ghost k: nat)
      requires Valid() && k < |items| && items[k] == item && (k == 0 || k == |items| - 1)
      modifies this`head, this`tail, items
      ensures Chain(Without(items, k), head, tail) && item !in Without(items, k)
    {
      assert k > 0 ==> item.prev == items[k - 1];
      assert k < |items| - 1 ==> item.next == items[k + 1];
      if head == item {
        if head == tail {
          head, tail := null, null;
        } else {
          item.next.prev := null;
          head := item.next;
        }
      } else {
        item.prev.next := null;
        tail := item.prev;
      }
    }

    /** The branch of `pool_rm_item` for an item between two others. */
    method UnlinkMiddle(item: Item, ghost k: nat)
      requires Valid() && 0 < k < |items| - 1 && items[k] == item
      modifies items
      ensures Chain(Without(items, k), head, tail) && item !in Without(items, k)
    {
      assert item.prev == items[k - 1] && item.next == items[k + 1];
      ghost var t := Without(items, k);
      assert forall i :: 0 <= i < |t| ==> t[i] == if i < k then items[i] else items[i + 1];
      if item.prev != null {
        item.prev.next := item.next;
      }
      if item.next != null {
        item.next.prev := item.prev;
      }
    }

    /** The item is at position `k`, or `k` is past the end and the item is linked nowhere. */
    ghost predicate Placed(item: Item, k: nat)
      reads this, item
    {
      if k < |items| then items[k] == item else item !in items && item.prev == null && item.next == null
    }

    /** The items that `pool_rm_item` leaves. */
    ghost function Left(k: nat): seq<Item>
      reads this
    {
      if k < |items| then Without(items, k) else items
    }

    /** The branches of `pool_rm_item`; on a detached item both tests of the last one fail. */
    method Unlink(item: Item, ghost k: nat)
      requires Valid() && Placed(item, k)
      modifies this`head, this`tail, items
      ensures Chain(Left(k), head, tail) && item !in Left(k)
    {
      if head == item || tail == item {
        UnlinkEnd(item, k);
      } else if item.prev != null || item.next != null {
        UnlinkMiddle(item, k);
      }
    }

    /**
     * `pool_rm_item` takes the item at position `k` out and keeps the order of the others. A detached item is
     * counted all the same, so the pool stays consistent if and only if the item was in it.
     */
    method Remove(item: Item, ghost k: nat)
      requires Valid() && Placed(item, k)
      modifies this, items, item
      ensures item.next == null && item.prev == null && item !in items
      ensures items == old(Left(k)) && Chain(items, head, tail) && size == old(size) - 1
      ensures Valid() <==> k < |old(items)|
    {
      Unlink(item, k);
      hide Chain;
      item.prev, item.next := null, null;
      size := size - 1;
      items := Left(k);
    }

    /** `pool_size` counts the links and agrees with the stored size. */
    method Count() returns (n: nat)
      requires Valid()
      ensures n == size
    {
      n := 0;
      var pi := head;
      while pi != null
        invariant n <= |items| && pi == if n < |items| then items[n] else null
        decreases |items| - n
      {
        pi := pi.next;
        n := n + 1;
      }
    }
  }

  /**
   * `item_return`: an item goes from the active pool to the tail of the free pool, and no other item moves. The
   * active pool stays consistent if and only if the item was in it.
   */
  method Return(active: List, free: List, item: Item, ghost k: nat)
    requires active.Valid() && free.Valid() && active != free && active.Placed(item, k) && item !in free.items
    requires forall i, j :: 0 <= i < |active.items| && 0 <= j < |free.items| ==> active.items[i] != free.items[j]
    modifies active, active.items, free, free.items, item
    ensures free.Valid() && (active.Valid() <==> k < |old(active.items)|)
    ensures active.items == old(active.Left(k))
    ensures free.items == old(free.items) + [item] && active.size == old(active.size) - 1
  {
    hide Chain;
    active.Remove(item, k);
    ghost var was, now := old(active.items), active.items;
    assert forall i :: 0 <= i < |now| ==> now[i] == was[if i < k then i else i + 1] && now[i] != item;
    free.Add(item);
  }
}
