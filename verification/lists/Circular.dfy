/** The CDL_ macros that edit a circular list. */
module CircularEdit {
  import opened Shapes
  import opened MergeSpec
  import opened Wrappers
  import opened Splice
  import Singly = SinglyEdit

  /** CDL_APPEND2. */
  method Append(head: Node?, add: Node, ghost s: seq<Node>) returns (head': Node?)
    requires Circular(head, s) && add !in s
    modifies s, add
    ensures Circular(head', InsertedAt(s, |s|, add))
  {
    InsertedShape(s, |s|, add);
    hide InsertedAt;
    head' := head;
    if head != null {
      add.prev := head.prev;
      add.next := head;
      head.prev := add;
      add.prev.next := add;
    } else {
      add.prev := add;
      add.next := add;
      head' := add;
    }
  }

  /** CDL_PREPEND2. */
  method Prepend(head: Node?, add: Node, ghost s: seq<Node>) returns (head': Node?)
    requires Circular(head, s) && add !in s
    modifies s, add
    ensures Circular(head', InsertedAt(s, 0, add))
  {
    InsertedShape(s, 0, add);
    hide InsertedAt;
    if head != null {
      add.prev := head.prev;
      add.next := head;
      head.prev := add;
      add.prev.next := add;
    } else {
      add.prev := add;
      add.next := add;
    }
    head' := add;
  }

  method AppendAfter(el: Node, add: Node, ghost head: Node, ghost s: seq<Node>, ghost i: nat)
    requires Circular(head, s) && add !in s && i < |s| && el == s[i]
    modifies s, add
    ensures Circular(head, InsertedAt(s, i + 1, add))
  {
    InsertedShape(s, i + 1, add);
    hide InsertedAt;
    add.next := el.next;
    add.prev := el;
    el.next := add;
    add.next.prev := add;
    ghost var t := InsertedAt(s, i + 1, add);
    assert Linked(t);
    assert LinkedBack(t);
  }

  /** CDL_APPEND_ELEM2: after `el`, or in front when `el` is NULL. */
  method AppendElem(head: Node?, el: Node?, add: Node, ghost s: seq<Node>, ghost i: int) returns (head': Node?)
    requires Circular(head, s) && add !in s
    requires -1 <= i < |s| && el == At(s, i)
    modifies s, add
    ensures Circular(head', InsertedAt(s, i + 1, add))
  {
    head' := head;
    if el != null {
      AppendAfter(el, add, head, s, i);
    } else {
      head' := Prepend(head, add, s);
    }
  }

  /** CDL_PREPEND_ELEM2: before `el`, or at the end when `el` is NULL. */
  method PrependElem(head: Node?, el: Node?, add: Node, ghost s: seq<Node>, ghost i: nat) returns (head': Node?)
    requires Circular(head, s) && add !in s
    requires i <= |s| && el == At(s, i)
    modifies s, add
    ensures Circular(head', InsertedAt(s, i, add))
  {
    InsertedShape(s, i, add);
    hide InsertedAt;
    head' := head;
    if el != null {
      add.next := el;
      add.prev := el.prev;
      el.prev := add;
      add.prev.next := add;
      if head == el {
        head' := add;
      }
    } else {
      head' := Append(head, add, s);
    }
  }

  /** CDL_REPLACE_ELEM2. */
  method Replace(head: Node, el: Node, add: Node, ghost s: seq<Node>, ghost i: nat) returns (head': Node)
    requires Circular(head, s) && add !in s
    requires i < |s| && el == s[i]
    modifies s, add
    ensures Circular(head', s[i := add])
  {
    head' := head;
    if el.next == el {
      add.next := add;
      add.prev := add;
      head' := add;
    } else {
      add.next := el.next;
      add.prev := el.prev;
      add.next.prev := add;
      add.prev.next := add;
      if head == el {
        head' := add;
      }
    }
  }

  /** CDL_DELETE2. */
  method Delete(head: Node, del: Node, ghost s: seq<Node>, ghost i: nat) returns (head': Node?)
    requires Circular(head, s)
    requires i < |s| && del == s[i]
    modifies s
    ensures Circular(head', RemovedAt(s, i))
    ensures del.next == old(del.next) && del.prev == old(del.prev)
  {
    RemovedShape(s, i);
    hide RemovedAt;
    head' := head;
    if head == del && head.next == head {
      head' := null;
    } else {
      del.next.prev := del.prev;
      del.prev.next := del.next;
      if del == head {
        head' := del.next;
      }
    }
  }

  /** Deleting a node that was just put in, link by link and in all. */
  method AppendDelete(head: Node, el: Node?, add: Node, ghost s: seq<Node>, ghost i: int) returns (head': Node?)
    requires Circular(head, s) && add !in s
    requires -1 <= i < |s| && el == At(s, i)
    modifies s, add
    ensures head' == head && Circular(head', s)
  {
    HeadOf(head, s);
    hide *;
    ghost var t := InsertRemove(s, i + 1, add);
    head' := AppendElem(head, el, add, s, i);
    HeadOf(head', t);
    var h: Node := head';
    head' := Delete(h, add, t, i + 1);
    HeadOf(head', s);
  }

  /** Deleting a node that was just put in restores the circle and its every link. */
  method AppendThenDelete(head: Node, el: Node?, add: Node, ghost s: seq<Node>, ghost i: int) returns (head': Node?)
    requires Circular(head, s) && add !in s
    requires -1 <= i < |s| && el == At(s, i)
    modifies s, add
    ensures head' == head && Circular(head', s)
    ensures forall k | 0 <= k < |s| :: s[k].next == old(s[k].next) && s[k].prev == old(s[k].prev)
  {
    hide *;
    CircularLinks(head, s);
    head' := AppendDelete(head, el, add, s, i);
    CircularLinks(head', s);
  }

  lemma HeadOf(head: Node?, s: seq<Node>)
    requires Circular(head, s)
    ensures if s == [] then head == null else head == s[0]
  {
  }

  /** CDL_LOWER_BOUND2: the last node below `like`, or NULL. */
  method LowerBound(head: Node?, like: Node, cmp: Singly.Comparison, ghost s: seq<Node>) returns (elt: Node?)
    requires Circular(head, s)
    ensures elt == At(s, Singly.Bound(cmp, s, like) - 1)
  {
    if head == null || cmp(head, like) >= 0 {
      elt := null;
    } else {
      elt := head;
      ghost var i := 0;
      while elt.next != head
        invariant 0 <= i < |s| && elt == s[i]
        invariant forall j | 0 <= j <= i :: cmp(s[j], like) < 0
        decreases |s| - i
      {
        if cmp(elt.next, like) >= 0 {
          break;
        }
        elt := elt.next;
        i := i + 1;
      }
      Singly.BoundUnique(cmp, s, like, i + 1);
    }
  }

  /** CDL_INSERT_INORDER2. */
  method InsertInOrder(head: Node?, add: Node, cmp: Singly.Comparison, ghost s: seq<Node>)
    returns (head': Node?)
    requires Circular(head, s) && add !in s
    modifies s, add
    ensures Circular(head', InsertedAt(s, Singly.Bound(cmp, s, add), add))
  {
    if head != null {
      var tmp := LowerBound(head, add, cmp, s);
      head' := AppendElem(head, tmp, add, s, Singly.Bound(cmp, s, add) - 1);
    } else {
      head' := add;
      head'.next := head';
      head'.prev := head';
    }
  }

  /** The splice behind `h` in CDL_INSERT_INORDER2 without decltype. */
  method InsertAfter(h: Node, add: Node, ghost head: Node, ghost s: seq<Node>, ghost i: nat)
    requires Circular(head, s) && add !in s && i < |s| && h == s[i]
    modifies s, add
    ensures Circular(head, InsertedAt(s, i + 1, add))
  {
    InsertedShape(s, i + 1, add);
    hide InsertedAt;
    add.prev := h;
    add.next := h.next;
    add.next.prev := add;
    h.next := add;
    ghost var t := InsertedAt(s, i + 1, add);
    assert Linked(t);
    assert LinkedBack(t);
  }

  /** Its splice at the front. */
  method InsertFront(head: Node, add: Node, ghost s: seq<Node>) returns (head': Node)
    requires Circular(head, s) && add !in s
    modifies s, add
    ensures Circular(head', InsertedAt(s, 0, add))
  {
    InsertedShape(s, 0, add);
    hide InsertedAt;
    add.prev := head.prev;
    add.next := head;
    add.prev.next := add;
    head.prev := add;
    head' := add;
  }

  /** Its loop, in which the head walks on to the last of the leading nodes below `like`. */
  method WalkBelow(head: Node, like: Node, cmp: Singly.Comparison, ghost s: seq<Node>)
    returns (h: Node, ghost k: nat)
    requires Circular(head, s) && cmp(head, like) < 0
    ensures k + 1 == Singly.Bound(cmp, s, like) && k < |s| && h == s[k]
  {
    hide Singly.Bound;
    h, k := head, 0;
    while h.next != head && cmp(h.next, like) < 0
      invariant 0 <= k < Singly.Bound(cmp, s, like) && h == s[k]
      decreases |s| - k
    {
      h := h.next;
      k := k + 1;
    }
  }

  /** CDL_INSERT_INORDER2 without decltype. */
  method InsertInOrderNoDecltype(head: Node?, add: Node, cmp: Singly.Comparison, ghost s: seq<Node>)
    returns (head': Node?)
    requires Circular(head, s) && add !in s
    modifies s, add
    ensures Circular(head', InsertedAt(s, Singly.Bound(cmp, s, add), add))
  {
    if head == null {
      assert InsertedAt(s, 0, add) == [add];
      add.prev := add;
      add.next := add;
      head' := add;
    } else if cmp(head, add) >= 0 {
      head' := InsertFront(head, add, s);
    } else {
      hide Circular;
      ghost var k;
      var h;
      h, k := WalkBelow(head, add, cmp, s);
      InsertAfter(h, add, head, s, k);
      head' := head;
    }
  }
}
