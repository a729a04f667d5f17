/** The LL_ macros that edit a singly linked list, with their rewrites for compilers
    without decltype, which borrow a link or the head instead of a temporary. */
module SinglyEdit {
  import opened Shapes
  import opened MergeSpec
  import opened Wrappers
  import opened Splice

  type Comparison = (Node, Node) -> int

  /** How many leading elements the lower-bound loop passes: those below `like`. */
  function Bound(cmp: Comparison, s: seq<Node>, like: Node): (i: nat)
    ensures i <= |s|
    ensures forall j | 0 <= j < i :: cmp(s[j], like) < 0
    ensures i < |s| ==> cmp(s[i], like) >= 0
  {
    if s == [] || cmp(s[0], like) >= 0 then 0 else 1 + Bound(cmp, s[1..], like)
  }

  lemma {:induction false} BoundUnique(cmp: Comparison, s: seq<Node>, like: Node, i: nat)
    requires i <= |s| && (forall j | 0 <= j < i :: cmp(s[j], like) < 0)
    requires i < |s| ==> cmp(s[i], like) >= 0
    ensures Bound(cmp, s, like) == i
  {
    if i > 0 {
      BoundUnique(cmp, s[1..], like, i - 1);
    }
  }

  /** Inserting at the lower bound is ordered insertion. */
  lemma {:induction false} InsertAtBound(cmp: Comparison, s: seq<Node>, x: Node, u: set<Node>)
    requires Antisymmetric(cmp, u) && Within(s, u) && x in u && x !in s
    ensures InsertedAt(s, Bound(cmp, s, x), x) == Insert(cmp, x, s)
  {
    if s != [] && cmp(s[0], x) < 0 {
      BehindFirst(cmp, s, x, u);
      InsertAtBound(cmp, s[1..], x, u);
      hide *;
      InsertedBehind(s, Bound(cmp, s[1..], x), x);
    } else if s != [] {
      assert s[0] in s;
    }
  }

  lemma BehindFirst(cmp: Comparison, s: seq<Node>, x: Node, u: set<Node>)
    requires Antisymmetric(cmp, u) && Within(s, u) && x in u && x !in s
    requires s != [] && cmp(s[0], x) < 0
    ensures Within(s[1..], u) && x !in s[1..]
    ensures Bound(cmp, s, x) == 1 + Bound(cmp, s[1..], x) && Insert(cmp, x, s) == [s[0]] + Insert(cmp, x, s[1..])
  {
    assert s[0] in s;
  }

  lemma InsertedBehind(s: seq<Node>, i: nat, x: Node)
    requires i + 1 <= |s|
    ensures InsertedAt(s, i + 1, x) == [s[0]] + InsertedAt(s[1..], i, x)
  {
  }

  /** Inserting at the lower bound is ordered insertion, for all lists of nodes of `u`, if
      and only if the comparison says the same both ways round. */
  lemma InsertAtBoundIff(cmp: Comparison, u: set<Node>)
    ensures Antisymmetric(cmp, u) <==>
      forall s: seq<Node>, x: Node | Within(s, u) && x in u && x !in s ::
        InsertedAt(s, Bound(cmp, s, x), x) == Insert(cmp, x, s)
  {
    if Antisymmetric(cmp, u) {
      forall s: seq<Node>, x: Node | Within(s, u) && x in u && x !in s
        ensures InsertedAt(s, Bound(cmp, s, x), x) == Insert(cmp, x, s)
      {
        InsertAtBound(cmp, s, x, u);
      }
    } else {
      var a, x :| a in u && x in u && a != x && !(cmp(a, x) >= 0 <==> Leq(cmp, x, a));
      assert Within([a], u) && x !in [a];
      assert InsertedAt([a], 0, x) == [x, a] && InsertedAt([a], 1, x) == [a, x] && [a, x][0] != [x, a][0];
      assert Insert(cmp, x, []) == [x] && [a][1..] == [];
      assert InsertedAt([a], Bound(cmp, [a], x), x) != Insert(cmp, x, [a]);
    }
  }

  /** The elements of `s` put into an empty list by ordered insertion, the last one first. */
  function InsertedInOrder(cmp: Comparison, s: seq<Node>): seq<Node> {
    if s == [] then []
    else
      var r := InsertedInOrder(cmp, s[1..]);
      InsertedAt(r, Bound(cmp, r, s[0]), s[0])
  }

  lemma {:induction false} InOrderIsInsertion(cmp: Comparison, s: seq<Node>, u: set<Node>)
    requires Distinct(s) && Antisymmetric(cmp, u) && Within(s, u)
    ensures InsertedInOrder(cmp, s) == InsertionSort(cmp, s)
  {
    if s != [] {
      InOrderIsInsertion(cmp, s[1..], u);
      FirstNotInRest(cmp, s, u);
      InsertAtBound(cmp, InsertionSort(cmp, s[1..]), s[0], u);
      hide Antisymmetric, Bound, Insert, InsertedAt, Within;
    }
  }

  lemma FirstNotInRest(cmp: Comparison, s: seq<Node>, u: set<Node>)
    requires s != [] && Distinct(s) && Within(s, u)
    ensures s[0] in u && s[0] !in InsertionSort(cmp, s[1..]) && Within(InsertionSort(cmp, s[1..]), u)
  {
    var rest := s[1..];
    InsertAllPermutes(cmp, rest, []);
    assert s[0] in s;
    hide InsertionSort, InsertAll;
    forall x | x in InsertionSort(cmp, rest) ensures x in rest {
      assert x in multiset(InsertionSort(cmp, rest));
    }
  }

  /** The sort yields what ordered insertion of the elements, the last one first, yields. */
  lemma SortIsInsertionInOrder(cmp: Comparison, s: seq<Node>, u: set<Node>)
    requires Distinct(s) && Within(s, u) && Preorder(cmp, u) && Antisymmetric(cmp, u)
    ensures MergeSort(cmp, s) == InsertedInOrder(cmp, s)
  {
    MergeSortIsInsertionSort(cmp, s, u);
    InOrderIsInsertion(cmp, s, u);
  }

  /** LL_LOWER_BOUND2: the last node below `like`, or NULL. */
  method LowerBound(head: Node?, like: Node, cmp: Comparison, ghost s: seq<Node>) returns (elt: Node?)
    requires SinglyLinked(head, s)
    ensures elt == At(s, Bound(cmp, s, like) - 1)
  {
    if head == null || cmp(head, like) >= 0 {
      elt := null;
    } else {
      elt := head;
      ghost var i := 0;
      while elt.next != null
        invariant 0 <= i < |s| && elt == s[i]
        invariant forall j | 0 <= j <= i :: cmp(s[j], like) < 0
        decreases |s| - i
      {
        if cmp(elt.next, like) >= 0 {
          break;
        }
        elt := elt.next;
        i := i + 1;
      }
      BoundUnique(cmp, s, like, i + 1);
    }
  }

  /** LL_PREPEND2. */
  method Prepend(head: Node?, add: Node, ghost s: seq<Node>) returns (head': Node?)
    requires SinglyLinked(head, s) && add !in s
    modifies add
    ensures SinglyLinked(head', InsertedAt(s, 0, add))
  {
    InsertedShape(s, 0, add);
    hide InsertedAt;
    add.next := head;
    head' := add;
  }

  /** LL_APPEND2. */
  method Append(head: Node?, add: Node, ghost s: seq<Node>) returns (head': Node?)
    requires SinglyLinked(head, s) && add !in s
    modifies s, add
    ensures SinglyLinked(head', InsertedAt(s, |s|, add))
  {
    InsertedShape(s, |s|, add);
    hide InsertedAt;
    head' := head;
    add.next := null;
    if head != null {
      var tmp: Node := head;
      ghost var k := 0;
      while tmp.next != null
        invariant 0 <= k < |s| && tmp == s[k]
        decreases |s| - k
      {
        tmp := tmp.next;
        k := k + 1;
      }
      tmp.next := add;
    } else {
      head' := add;
    }
  }

  /** LL_APPEND2 without decltype: `add.next` walks the list. */
  method AppendNoDecltype(head: Node?, add: Node, ghost s: seq<Node>) returns (head': Node?)
    requires SinglyLinked(head, s) && add !in s
    modifies s, add
    ensures SinglyLinked(head', InsertedAt(s, |s|, add))
  {
    InsertedShape(s, |s|, add);
    hide InsertedAt;
    head' := head;
    if head != null {
      add.next := head;
      ghost var k := 0;
      while add.next.next != null
        invariant 0 <= k < |s| && add.next == s[k]
        invariant SinglyLinked(head, s)
        decreases |s| - k
      {
        add.next := add.next.next;
        k := k + 1;
      }
      add.next.next := add;
    } else {
      head' := add;
    }
    add.next := null;
  }

  /** LL_CONCAT2. */
  method Concat(head1: Node?, head2: Node?, ghost s1: seq<Node>, ghost s2: seq<Node>) returns (head': Node?)
    requires SinglyLinked(head1, s1) && SinglyLinked(head2, s2)
    requires forall x | x in s1 :: x !in s2
    modifies s1
    ensures SinglyLinked(head', s1 + s2)
  {
    ghost var t := s1 + s2;
    assert Distinct(t) by {
      forall i, j | 0 <= i < j < |t| ensures t[i] != t[j] {
        assert i < |s1| ==> s1[i] in s1;
      }
    }
    head' := head1;
    if head1 != null {
      var tmp: Node := head1;
      ghost var k := 0;
      while tmp.next != null
        invariant 0 <= k < |s1| && tmp == s1[k]
        decreases |s1| - k
      {
        tmp := tmp.next;
        k := k + 1;
      }
      assert tmp in s1;
      tmp.next := head2;
      assert forall j | 0 <= j < |s2| :: t[|s1| + j] == s2[j] && s2[j] != tmp;
      assert forall i | 0 <= i < |s1| :: t[i] == s1[i];
      assert Linked(t);
    } else {
      head' := head2;
      assert t == s2;
    }
  }

  /** LL_APPEND_ELEM2: after `el`, or in front when `el` is NULL. */
  method AppendElem(head: Node?, el: Node?, add: Node, ghost s: seq<Node>, ghost i: int) returns (head': Node?)
    requires SinglyLinked(head, s) && add !in s
    requires -1 <= i < |s| && el == At(s, i)
    modifies s, add
    ensures SinglyLinked(head', InsertedAt(s, i + 1, add))
  {
    InsertedShape(s, i + 1, add);
    hide InsertedAt;
    head' := head;
    if el != null {
      add.next := el.next;
      el.next := add;
    } else {
      head' := Prepend(head, add, s);
    }
  }

  /** LL_PREPEND_ELEM2: before `el`, or at the end when `el` is NULL. */
  method PrependElem(head: Node?, el: Node?, add: Node, ghost s: seq<Node>, ghost i: nat) returns (head': Node?)
    requires SinglyLinked(head, s) && add !in s
    requires i <= |s| && el == At(s, i)
    modifies s, add
    ensures SinglyLinked(head', InsertedAt(s, i, add))
  {
    InsertedShape(s, i, add);
    hide InsertedAt;
    head' := head;
    if el != null {
      add.next := el;
      if head == el {
        head' := add;
      } else {
        var tmp: Node := head;
        ghost var k := 0;
        while tmp.next != null && tmp.next != el
          invariant 0 <= k < i && tmp == s[k]
          decreases |s| - k
        {
          tmp := tmp.next;
          k := k + 1;
        }
        if tmp.next != null {
          tmp.next := add;
        }
      }
    } else {
      head' := Append(head, add, s);
    }
  }

  /** LL_PREPEND_ELEM2 without decltype. */
  method PrependElemNoDecltype(head: Node?, el: Node?, add: Node, ghost s: seq<Node>, ghost i: nat) returns (head': Node?)
    requires SinglyLinked(head, s) && add !in s
    requires i <= |s| && el == At(s, i)
    modifies s, add
    ensures SinglyLinked(head', InsertedAt(s, i, add))
  {
    InsertedShape(s, i, add);
    hide InsertedAt;
    head' := head;
    if el != null {
      if head == el {
        head' := add;
      } else {
        add.next := head;
        ghost var k := 0;
        while add.next.next != null && add.next.next != el
          invariant 0 <= k < i && add.next == s[k]
          invariant SinglyLinked(head, s)
          decreases |s| - k
        {
          add.next := add.next.next;
          k := k + 1;
        }
        if add.next.next != null {
          add.next.next := add;
        }
      }
      add.next := el;
    } else {
      head' := AppendNoDecltype(head, add, s);
    }
  }

  /** LL_REPLACE_ELEM2. */
  method Replace(head: Node, el: Node, add: Node, ghost s: seq<Node>, ghost i: nat) returns (head': Node)
    requires SinglyLinked(head, s) && add !in s
    requires i < |s| && el == s[i]
    modifies s, add
    ensures SinglyLinked(head', s[i := add])
  {
    head' := head;
    add.next := el.next;
    if head == el {
      head' := add;
    } else {
      var tmp := head;
      ghost var k := 0;
      while tmp.next != null && tmp.next != el
        invariant 0 <= k < i && tmp == s[k]
        decreases |s| - k
      {
        tmp := tmp.next;
        k := k + 1;
      }
      if tmp.next != null {
        tmp.next := add;
      }
    }
  }

  /** LL_REPLACE_ELEM2 without decltype. */
  method ReplaceNoDecltype(head: Node, el: Node, add: Node, ghost s: seq<Node>, ghost i: nat) returns (head': Node)
    requires SinglyLinked(head, s) && add !in s
    requires i < |s| && el == s[i]
    modifies s, add
    ensures SinglyLinked(head', s[i := add])
  {
    head' := head;
    if head == el {
      head' := add;
    } else {
      add.next := head;
      ghost var k := 0;
      while add.next.next != null && add.next.next != el
        invariant 0 <= k < i && add.next == s[k]
        invariant SinglyLinked(head, s)
        decreases |s| - k
      {
        add.next := add.next.next;
        k := k + 1;
      }
      if add.next.next != null {
        add.next.next := add;
      }
    }
    add.next := el.next;
  }

  /** LL_DELETE2; a node that is not on the list leaves it as it is. */
  method Delete(head: Node, del: Node, ghost s: seq<Node>, ghost i: nat) returns (head': Node?)
    requires SinglyLinked(head, s)
    requires if i < |s| then del == s[i] else del !in s
    modifies s
    ensures SinglyLinked(head', if i < |s| then RemovedAt(s, i) else s)
  {
    if i < |s| { RemovedShape(s, i); }
    hide RemovedAt;
    if head == del {
      head' := head.next;
    } else {
      head' := head;
      var tmp := head;
      ghost var k := 0;
      while tmp.next != null && tmp.next != del
        invariant 0 <= k < |s| && k < i && tmp == s[k]
        decreases |s| - k
      {
        tmp := tmp.next;
        k := k + 1;
      }
      if tmp.next != null {
        tmp.next := del.next;
      }
    }
  }

  /** LL_INSERT_INORDER2. */
  method InsertInOrder(head: Node?, add: Node, cmp: Comparison, ghost s: seq<Node>)
    returns (head': Node?)
    requires SinglyLinked(head, s) && add !in s
    modifies s, add
    ensures SinglyLinked(head', InsertedAt(s, Bound(cmp, s, add), add))
  {
    if head != null {
      var tmp := LowerBound(head, add, cmp, s);
      head' := AppendElem(head, tmp, add, s, Bound(cmp, s, add) - 1);
    } else {
      head' := add;
      head'.next := null;
    }
  }

  /** LL_INSERT_INORDER2 without decltype. */
  method InsertInOrderNoDecltype(head: Node?, add: Node, cmp: Comparison, ghost s: seq<Node>)
    returns (head': Node?)
    requires SinglyLinked(head, s) && add !in s
    modifies s, add
    ensures SinglyLinked(head', InsertedAt(s, Bound(cmp, s, add), add))
  {
    ghost var b := Bound(cmp, s, add);
    hide InsertedAt, Bound;
    if head == null || cmp(head, add) >= 0 {
      InsertedShape(s, 0, add);
      add.next := head;
      head' := add;
    } else {
      var h: Node := head;
      ghost var k := 0;
      while h.next != null && cmp(h.next, add) < 0
        invariant 0 <= k < b && h == s[k]
        decreases |s| - k
      {
        h := h.next;
        k := k + 1;
      }
      InsertAfter(h, add, head, s, k);
      head' := head;
    }
  }

  /** Its splice behind the place that the loop found. */
  method InsertAfter(h: Node, add: Node, ghost head: Node, ghost s: seq<Node>, ghost i: nat)
    requires SinglyLinked(head, s) && add !in s && i < |s| && h == s[i]
    modifies s, add
    ensures SinglyLinked(head, InsertedAt(s, i + 1, add))
  {
    InsertedShape(s, i + 1, add);
    hide InsertedAt;
    add.next := h.next;
    h.next := add;
  }
}
