/** The doubly linked list inside `becpool_t`, as lib/be_cpool.c relinks it under the pool lock. */
module BackendList {
  import opened Pool

  class ConnectionList {
    var head: Item?
    var tail: Item?
    var size: nat
    ghost var items: seq<Item>

    ghost predicate Valid()
      reads this, items
    {
      size == |items| && Chain(items, head, tail)
    }

    /** `becpool_new`. */
    constructor ()
      ensures Valid() && items == []
    {
      head, tail, size, items := null, null, 0, [];
    }

    /** Lines 166 to 174 of `becon_push`: a new connection, with null links, goes to the end. */
    method Append(bc: Item)
      requires Valid() && bc !in items && bc.prev == null && bc.next == null
      modifies this, items, bc
      ensures Valid() && items == old(items) + [bc]
    {
      if tail != null {
        tail.next := bc;
        bc.prev := tail;
        bc.next := null;
        tail := bc;
      } else {
        head, tail := bc, bc;
      }
      size := size + 1;
      items := items + [bc];
    }

    /** Lines 223 to 229 of `becon_get`: a connection that is not the last one is taken out of the chain. */
    method Unlink(bc: Item, ghost k: nat)
      requires Valid() && k < |items| - 1 && items[k] == bc
      modifies this`head, items
      ensures Chain(Without(items, k), head, tail) && bc !in Without(items, k)
    {
      ghost var s := items;
      assert bc.next == s[k + 1] && (k > 0 ==> bc.prev == s[k - 1]);
      ghost var t := Without(s, k);
      assert forall i :: 0 <= i < |t| ==> t[i] == if i < k then s[i] else s[i + 1];
      if head == bc {
        head := bc.next;
        bc.next.prev := null;
      } else {
        bc.prev.next := bc.next;
        bc.next.prev := bc.prev;
      }
    }

    /** Lines 221 to 235 of `becon_get`: the acquired connection goes to the end, the others keep their order. */
    method MoveToEnd(bc: Item, ghost k: nat)
      requires Valid() && k < |items| && items[k] == bc
      modifies this, items
      ensures Valid() && items == Without(old(items), k) + [bc]
    {
      ghost var rest := Without(items, k);
      if tail == bc {
        assert k == |items| - 1;
        assert items == rest + [bc];
      } else {
        Unlink(bc, k);
        Relink(bc, rest);
        items := rest + [bc];
      }
    }

    /** Lines 231 to 234 of `becon_get`. */
    method Relink(bc: Item, ghost rest: seq<Item>)
      requires rest != [] && Chain(rest, head, tail) && bc !in rest && tail in items && bc in items
      modifies this`tail, items
      ensures Chain(rest + [bc], head, tail)
    {
      tail.next := bc;
      bc.prev := tail;
      bc.next := null;
      tail := bc;
    }
  }
}
