/** The intrusive doubly linked lists of lib/kern/list.c, under the ready queue, the wait
    queues, the free lists and the open inodes: pointers rewired in place, seen as a sequence. */
module Lists {
  import opened Sequences

  class Elem {
    var prev: Elem?
    var next: Elem?
    /** Whose element it is: what `elem2entry` computes from the address. */
    const id: nat

    constructor (owner: nat)
      ensures prev == null && next == null && id == owner
    {
      prev, next, id := null, null, owner;
    }
  }

  /** Neighbours i and i+1 point at each other. */
  ghost predicate Link(s: seq<Elem>, i: nat)
    requires i + 1 < |s|
    reads s
  {
    s[i].next == s[i + 1] && s[i + 1].prev == s[i]
  }

  ghost predicate Linked(s: seq<Elem>)
    reads s
  {
    forall i: nat {:trigger Link(s, i)} :: i + 1 < |s| ==> Link(s, i)
  }

  lemma AtEnd(c: seq<Elem>, i: nat)
    requires NoDup(c) && i < |c|
    ensures c[i] == c[|c| - 1] <==> i == |c| - 1
  {
  }

  class List {
    const head: Elem
    const tail: Elem
    /** The elements between head and tail. */
    ghost var elems: seq<Elem>

    ghost function Chain(): (c: seq<Elem>)
      reads this
    {
      [head] + elems + [tail]
    }

    ghost predicate Valid()
      reads this, Chain()
    {
      NoDup(Chain()) && Linked(Chain())
    }

    /** `list_init`. */
    constructor ()
      ensures Valid() && elems == [] && fresh(head) && fresh(tail)
    {
      var h := new Elem(0);
      var t := new Elem(0);
      h.next, t.prev := t, h;
      head, tail, elems := h, t, [];
    }

    /** `list_insert_before`: k is the place of `before` in the chain. */
    method InsertBefore(before: Elem, elem: Elem, ghost k: nat)
      requires Valid() && 1 <= k < |Chain()| && before == Chain()[k] && elem !in Chain()
      modifies this, Chain(), elem
      ensures Valid() && elems == old(elems)[..k - 1] + [elem] + old(elems)[k - 1..]
    {
      ghost var c := Chain();
      assert Link(c, k - 1);
      var p := before.prev;
      p.next := elem;
      elem.prev := p;
      elem.next := before;
      before.prev := elem;
      elems := elems[..k - 1] + [elem] + elems[k - 1..];
      Inserted(c, elem, k);
      ghost var d := c[..k] + [elem] + c[k..];
      assert Chain() == d;
      forall i: nat | i + 1 < |d| ensures Link(d, i) {
        if i + 1 < k { assert old(Link(c, i)); } else if i > k { assert old(Link(c, i - 1)); }
      }
    }

    /** `list_push`. */
    method Push(elem: Elem)
      requires Valid() && elem !in Chain()
      modifies this, Chain(), elem
      ensures Valid() && elems == [elem] + old(elems)
    {
      assert Link(Chain(), 0);
      InsertBefore(head.next, elem, 1);
    }

    /** `list_append`. */
    method Append(elem: Elem)
      requires Valid() && elem !in Chain()
      modifies this, Chain(), elem
      ensures Valid() && elems == old(elems) + [elem]
    {
      InsertBefore(tail, elem, |Chain()| - 1);
    }

    /** `list_remove`: k is the place of the element. */
    method Remove(elem: Elem, ghost k: nat)
      requires Valid() && k < |elems| && elems[k] == elem
      modifies this, Chain()
      ensures Valid() && elems == old(elems)[..k] + old(elems)[k + 1..]
      ensures elem.prev == old(elem.prev) && elem.next == old(elem.next)
    {
      ghost var c := Chain();
      assert c[k + 1] == elem && Link(c, k) && Link(c, k + 1);
      elem.prev.next := elem.next;
      elem.next.prev := elem.prev;
      elems := elems[..k] + elems[k + 1..];
      ghost var d := c[..k + 1] + c[k + 2..];
      assert Chain() == d;
      forall i: nat | i + 1 < |d| ensures Link(d, i) {
        if i < k { assert old(Link(c, i)); } else if i > k { assert old(Link(c, i + 1)); }
      }
    }

    /** `list_pop`: the callers check that the list is not empty. */
    method Pop() returns (elem: Elem)
      requires Valid() && elems != []
      modifies this, Chain()
      ensures Valid() && elem == old(elems)[0] && elems == old(elems)[1..]
    {
      assert Link(Chain(), 0);
      elem := head.next;
      Remove(elem, 0);
    }

    /** `list_empty`. */
    method IsEmpty() returns (empty: bool)
      requires Valid()
      ensures empty <==> elems == []
    {
      assert Link(Chain(), 0);
      AtEnd(Chain(), 1);
      empty := head.next == tail;
    }

    /** `list_len`. */
    method Len() returns (n: nat)
      requires Valid()
      ensures n == |elems|
    {
      ghost var c := Chain();
      assert Link(c, 0);
      AtEnd(c, 1);
      var elem := head.next;
      n := 0;
      while elem != tail
        invariant n <= |elems| && elem == c[n + 1]
        decreases |elems| - n
      {
        assert Link(c, n + 1);
        AtEnd(c, n + 2);
        elem := elem.next;
        n := n + 1;
      }
    }

    /** `elem_find`. */
    method ElemFind(obj: Elem) returns (found: bool)
      requires Valid()
      ensures found <==> obj in elems
    {
      ghost var c := Chain();
      assert Link(c, 0);
      AtEnd(c, 1);
      var elem := head.next;
      ghost var n := 0;
      while elem != tail
        invariant n <= |elems| && elem == c[n + 1] && obj !in elems[..n]
        decreases |elems| - n
      {
        if elem == obj { return true; }
        assert Link(c, n + 1);
        AtEnd(c, n + 2);
        elem := elem.next;
        n := n + 1;
      }
      found := false;
    }

    /** `list_traversal`: the first element that satisfies the predicate, or null. */
    method Traverse(f: Elem -> bool) returns (r: Elem?)
      requires Valid()
      ensures r == null ==> forall i :: 0 <= i < |elems| ==> !f(elems[i])
      ensures r != null ==> exists k :: 0 <= k < |elems| && r == elems[k] && f(elems[k]) && forall i :: 0 <= i < k ==> !f(elems[i])
    {
      ghost var c := Chain();
      assert Link(c, 0);
      AtEnd(c, 1);
      var elem := head.next;
      ghost var n := 0;
      while elem != tail
        invariant n <= |elems| && elem == c[n + 1] && forall i :: 0 <= i < n ==> !f(elems[i])
        decreases |elems| - n
      {
        if f(elem) {
          assert elem == elems[n];
          return elem;
        }
        assert Link(c, n + 1);
        AtEnd(c, n + 2);
        elem := elem.next;
        n := n + 1;
      }
      r := null;
    }
  }

  lemma Inserted(c: seq<Elem>, elem: Elem, k: nat)
    requires NoDup(c) && elem !in c && k <= |c|
    ensures NoDup(c[..k] + [elem] + c[k..])
  {
  }
}
