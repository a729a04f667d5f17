/** One node put into, taken out of or exchanged in a sequence. */
module Splice {
  import opened Wrappers
  import opened Shapes

  lemma InsertedShape(s: seq<Node>, i: nat, x: Node)
    requires Distinct(s) && x !in s && i <= |s|
    ensures var t := InsertedAt(s, i, x);
      && |t| == |s| + 1 && Distinct(t)
      && (forall k | 0 <= k < i :: t[k] == s[k])
      && t[i] == x
      && (forall k | i < k < |t| :: t[k] == s[k - 1])
  {
  }

  lemma RemovedShape(s: seq<Node>, i: nat)
    requires Distinct(s) && i < |s|
    ensures var t := RemovedAt(s, i);
      && |t| == |s| - 1 && Distinct(t)
      && (forall k | 0 <= k < i :: t[k] == s[k])
      && (forall k | i <= k < |t| :: t[k] == s[k + 1])
      && s[i] !in t
  {
  }

  /** Taking a node out undoes putting it in; nothing else has joined the list between. */
  lemma InsertRemove(s: seq<Node>, i: nat, x: Node) returns (t: seq<Node>)
    requires i <= |s|
    ensures t == InsertedAt(s, i, x) && i < |t| && t[i] == x && RemovedAt(t, i) == s
    ensures forall k | 0 <= k < |t| :: t[k] in s || t[k] == x
  {
    t := InsertedAt(s, i, x);
  }
}
