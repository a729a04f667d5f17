/** The link fields of a list element, and what each kind of list looks like in memory. */
module Shapes {

  /** The two links that the macros read and write.  The record around them is never
      touched by a macro, so during one call a comparison is a function of the nodes. */
  class Node {
    var next: Node?
    var prev: Node?
  }

  ghost predicate Distinct(s: seq<Node>) {
    forall i, j | 0 <= i < j < |s| :: s[i] != s[j]
  }

  function At(s: seq<Node>, i: int): Node? {
    if 0 <= i < |s| then s[i] else null
  }

  function Last(s: seq<Node>): Node? {
    At(s, |s| - 1)
  }

  /** The `next` links run through `s`. */
  ghost predicate Linked(s: seq<Node>)
    reads s
  {
    forall i {:trigger s[i].next} | 0 <= i < |s| - 1 :: s[i].next == s[i + 1]
  }

  /** The `prev` links run back through `s`; the first one is left open. */
  ghost predicate LinkedBack(s: seq<Node>)
    reads s
  {
    forall i {:trigger s[i].prev} | 0 < i < |s| :: s[i].prev == s[i - 1]
  }

  /** A NULL-terminated singly linked list. */
  ghost predicate SinglyLinked(head: Node?, s: seq<Node>)
    reads s
  {
    && Distinct(s)
    && head == At(s, 0)
    && Linked(s)
    && (s != [] ==> s[|s| - 1].next == null)
  }

  /** A NULL-terminated doubly linked list whose head's `prev` is the tail. */
  ghost predicate DoublyLinked(head: Node?, s: seq<Node>)
    reads s
  {
    && SinglyLinked(head, s)
    && LinkedBack(s)
    && (s != [] ==> s[0].prev == s[|s| - 1])
  }

  /** A circular doubly linked list. */
  ghost predicate Circular(head: Node?, s: seq<Node>)
    reads s
  {
    && Distinct(s)
    && head == At(s, 0)
    && Linked(s)
    && LinkedBack(s)
    && (s != [] ==> s[|s| - 1].next == s[0] && s[0].prev == s[|s| - 1])
  }

  /** The shape and the nodes fix every link. */
  lemma DoubleLinks(head: Node?, s: seq<Node>)
    requires DoublyLinked(head, s)
    ensures forall k {:trigger s[k].next} | 0 <= k < |s| :: s[k].next == At(s, k + 1)
    ensures forall k {:trigger s[k].prev} | 0 <= k < |s| :: s[k].prev == At(s, if k == 0 then |s| - 1 else k - 1)
  {
  }

  lemma CircularLinks(head: Node?, s: seq<Node>)
    requires Circular(head, s)
    ensures forall k {:trigger s[k].next} | 0 <= k < |s| :: s[k].next == At(s, if k + 1 < |s| then k + 1 else 0)
    ensures forall k {:trigger s[k].prev} | 0 <= k < |s| :: s[k].prev == At(s, if k == 0 then |s| - 1 else k - 1)
  {
  }
}
