/** The sequences of the step machines are what the linked lists hold, under any naming of their items. */
module PoolViews {
  import opened Basics
  import opened Pool
  import BackendList
  import BackendPool
  import ThreadPool

  /** The names of the items of a list, in order. */
  function Named(s: seq<Item>, name: Item -> nat): (r: seq<nat>)
    ensures |r| == |s| && forall i :: 0 <= i < |s| ==> r[i] == name(s[i])
  {
    seq(|s|, i requires 0 <= i < |s| => name(s[i]))
  }

  /** Taking position `k` out of the list takes its name out of the sequence. */
  lemma WithoutIsDrop(s: seq<Item>, k: nat, name: Item -> nat)
    requires k < |s| && Distinct(Named(s, name))
    ensures Named(Without(s, k) + [s[k]], name) == BackendPool.Drop(Named(s, name), name(s[k])) + [name(s[k])]
  {
    BackendPool.DropAt(Named(s, name), k);
  }

  /** What `becon_get` relinks is what the step `GetTake` of the connection pool does to its sequence. */
  method Acquire(pool: BackendList.ConnectionList, bc: Item, ghost k: nat, ghost name: Item -> nat)
    requires pool.Valid() && k < |pool.items| && pool.items[k] == bc && Distinct(Named(pool.items, name))
    modifies pool, pool.items
    ensures pool.Valid()
    ensures Named(pool.items, name) == BackendPool.Drop(old(Named(pool.items, name)), name(bc)) + [name(bc)]
  {
    WithoutIsDrop(pool.items, k, name);
    pool.MoveToEnd(bc, k);
  }

  /** What `becon_push` links is what the step `PushLink` of the connection pool appends. */
  method Link(pool: BackendList.ConnectionList, bc: Item, ghost name: Item -> nat)
    requires pool.Valid() && bc !in pool.items && bc.prev == null && bc.next == null
    modifies pool, pool.items, bc
    ensures pool.Valid() && Named(pool.items, name) == old(Named(pool.items, name)) + [name(bc)]
  {
    pool.Append(bc);
  }

  /** What `pool_pop` takes and leaves is what the steps of the worker pool take and leave. */
  method Take(pool: List, ghost name: Item -> nat) returns (item: Item?)
    requires pool.Valid()
    modifies pool, pool.items
    ensures pool.Valid()
    ensures old(pool.items) == [] ==> item == null && pool.items == []
    ensures old(pool.items) != [] ==>
        && item != null && name(item) == ThreadPool.Last(old(Named(pool.items, name)))
        && Named(pool.items, name) == ThreadPool.Init0(old(Named(pool.items, name)))
  {
    item := pool.Pop();
    assert item != null ==> Named(pool.items + [item], name) == Named(pool.items, name) + [name(item)];
  }
}
