/** The DL_ macros that edit a doubly linked list. */
module DoublyEdit {
  import opened Shapes
  import opened MergeSpec
  import opened Wrappers
  import opened Splice
  import Singly = SinglyEdit

  /** DL_PREPEND2. */
  method Prepend(head: Node?, add: Node, ghost s: seq<Node>) returns (head': Node?)
    requires DoublyLinked(head, s) && add !in s
    modifies s, add
    ensures DoublyLinked(head', InsertedAt(s, 0, add))
  {
    InsertedShape(s, 0, add);
    hide InsertedAt;
    add.next := head;
    if head != null {
      add.prev := head.prev;
      head.prev := add;
    } else {
      add.prev := add;
    }
    head' := add;
  }

  /** DL_APPEND2. */
  method Append(head: Node?, add: Node, ghost s: seq<Node>) returns (head': Node?)
    requires DoublyLinked(head, s) && add !in s
    modifies s, add
    ensures DoublyLinked(head', InsertedAt(s, |s|, add))
  {
    InsertedShape(s, |s|, add);
    hide InsertedAt;
    head' := head;
    if head != null {
      add.prev := head.prev;
      head.prev.next := add;
      head.prev := add;
      add.next := null;
    } else {
      head' := add;
      head'.prev := head';
      head'.next := null;
    }
  }

  method AppendAfter(head: Node, el: Node, add: Node, ghost s: seq<Node>, ghost i: nat)
    requires DoublyLinked(head, s) && add !in s
    requires i < |s| && el == s[i]
    modifies s, add
    ensures DoublyLinked(head, InsertedAt(s, i + 1, add))
  {
    InsertedShape(s, i + 1, add);
    hide InsertedAt;
    add.next := el.next;
    add.prev := el;
    el.next := add;
    if add.next != null {
      add.next.prev := add;
    } else {
      head.prev := add;
    }
    ghost var t := InsertedAt(s, i + 1, add);
    assert Linked(t);
    assert LinkedBack(t);
  }

  /** DL_APPEND_ELEM2: after `el`, or in front when `el` is NULL. */
  method AppendElem(head: Node?, el: Node?, add: Node, ghost s: seq<Node>, ghost i: int) returns (head': Node?)
    requires DoublyLinked(head, s) && add !in s
    requires -1 <= i < |s| && el == At(s, i)
    modifies s, add
    ensures DoublyLinked(head', InsertedAt(s, i + 1, add))
  {
    head' := head;
    if el != null {
      AppendAfter(head, el, add, s, i);
    } else {
      head' := Prepend(head, add, s);
    }
  }

  /** DL_PREPEND_ELEM2: before `el`, or at the end when `el` is NULL. */
  method PrependElem(head: Node?, el: Node?, add: Node, ghost s: seq<Node>, ghost i: nat) returns (head': Node?)
    requires DoublyLinked(head, s) && add !in s
    requires i <= |s| && el == At(s, i)
    modifies s, add
    ensures DoublyLinked(head', InsertedAt(s, i, add))
  {
    InsertedShape(s, i, add);
    hide InsertedAt;
    head' := head;
    if el != null {
      add.next := el;
      add.prev := el.prev;
      el.prev := add;
      if head == el {
        head' := add;
      } else {
        add.prev.next := add;
      }
    } else {
      head' := Append(head, add, s);
    }
  }

  /** DL_REPLACE_ELEM2. */
  method Replace(head: Node, el: Node, add: Node, ghost s: seq<Node>, ghost i: nat) returns (head': Node)
    requires DoublyLinked(head, s) && add !in s
    requires i < |s| && el == s[i]
    modifies s, add
    ensures DoublyLinked(head', s[i := add])
  {
    head' := head;
    if head == el {
      head' := add;
      add.next := el.next;
      if el.next == null {
        add.prev := add;
      } else {
        add.prev := el.prev;
        add.next.prev := add;
      }
    } else {
      add.next := el.next;
      add.prev := el.prev;
      add.prev.next := add;
      if el.next == null {
        head.prev := add;
      } else {
        add.next.prev := add;
      }
    }
  }

  /** DL_DELETE2. */
  method Delete(head: Node, del: Node, ghost s: seq<Node>, ghost i: nat) returns (head': Node?)
    requires DoublyLinked(head, s)
    requires i < |s| && del == s[i]
    modifies s
    ensures DoublyLinked(head', RemovedAt(s, i))
    ensures del.next == old(del.next) && del.prev == old(del.prev)
  {
    RemovedShape(s, i);
    hide RemovedAt;
    head' := head;
    if del.prev == del {
      head' := null;
    } else if del == head {
      del.next.prev := del.prev;
      head' := del.next;
    } else {
      del.prev.next := del.next;
      if del.next != null {
        del.next.prev := del.prev;
      } else {
        head.prev := del.prev;
      }
    }
  }

  /** Deleting a node that was just put in, link by link and in all. */
  method AppendDelete(head: Node, el: Node?, add: Node, ghost s: seq<Node>, ghost i: int) returns (head': Node?)
    requires DoublyLinked(head, s) && add !in s
    requires -1 <= i < |s| && el == At(s, i)
    modifies s, add
    ensures head' == head && DoublyLinked(head', s)
  {
    HeadOf(head, s);
    hide *;
    ghost var t := InsertRemove(s, i + 1, add);
    head' := AppendElem(head, el, add, s, i);
    HeadOf(head', t);
    var h: Node := head';
    head' := Delete(h, add, t, i + 1);
    HeadOf(head', s);
  }

  /** Deleting a node that was just put in restores the list and its every link. */
  method AppendThenDelete(head: Node, el: Node?, add: Node, ghost s: seq<Node>, ghost i: int) returns (head': Node?)
    requires DoublyLinked(head, s) && add !in s
    requires -1 <= i < |s| && el == At(s, i)
    modifies s, add
    ensures head' == head && DoublyLinked(head', s)
    ensures forall k | 0 <= k < |s| :: s[k].next == old(s[k].next) && s[k].prev == old(s[k].prev)
  {
    hide *;
    DoubleLinks(head, s);
    head' := AppendDelete(head, el, add, s, i);
    DoubleLinks(head', s);
  }

  lemma HeadOf(head: Node?, s: seq<Node>)
    requires DoublyLinked(head, s)
    ensures if s == [] then head == null else head == s[0]
  {
  }

  /** DL_CONCAT2. */
  method Concat(head1: Node?, head2: Node?, ghost s1: seq<Node>, ghost s2: seq<Node>) returns (head': Node?)
    requires DoublyLinked(head1, s1) && DoublyLinked(head2, s2)
    requires forall x | x in s1 :: x !in s2
    modifies s1, s2
    ensures DoublyLinked(head', s1 + s2)
  {
    ghost var t := s1 + s2;
    assert Distinct(t) by {
      forall i, j | 0 <= i < j < |t| ensures t[i] != t[j] {
        assert i < |s1| ==> s1[i] in s1;
      }
    }
    head' := head1;
    if head2 != null {
      if head1 != null {
        var tmp := head2.prev;
        head2.prev := head1.prev;
        head1.prev.next := head2;
        head1.prev := tmp;
        assert forall i | 0 <= i < |s1| :: t[i] == s1[i] && s1[i] in s1;
        assert forall j | 0 <= j < |s2| :: t[|s1| + j] == s2[j] && s2[j] !in s1;
        assert Linked(t) && LinkedBack(t);
      } else {
        head' := head2;
        assert t == s2;
      }
    } else {
      assert t == s1;
    }
  }

  /** DL_INSERT_INORDER2, in its form for compilers with decltype.  DL_LOWER_BOUND2 is
      the text of LL_LOWER_BOUND2. */
  method InsertInOrder(head: Node?, add: Node, cmp: Singly.Comparison, ghost s: seq<Node>)
    returns (head': Node?)
    requires DoublyLinked(head, s) && add !in s
    modifies s, add
    ensures DoublyLinked(head', InsertedAt(s, Singly.Bound(cmp, s, add), add))
  {
    if head != null {
      var tmp := Singly.LowerBound(head, add, cmp, s);
      head' := AppendElem(head, tmp, add, s, Singly.Bound(cmp, s, add) - 1);
    } else {
      head' := add;
      head'.prev := head';
      head'.next := null;
    }
  }
}
