/** LL_SORT2, DL_SORT2 and CDL_SORT2.

    The three macros are one text with two switches, kept here as parameters: `oldHead`
    is the node whose reappearance marks the end of the input (NULL for the
    NULL-terminated lists, where the test changes nothing), and `linkPrev` says whether
    an emitted node gets its `prev` link. */
module ListSort {
  import opened Wrappers
  import opened Shapes
  import opened MergeSpec
  import opened SortCosts

  type Comparison = (Node, Node) -> int

  /** `rank` tells the place of each node of `s`; in particular the nodes are distinct. */
  ghost predicate Ranked(s: seq<Node>, rank: map<Node, int>) {
    forall i | 0 <= i < |s| :: s[i] in rank && rank[s[i]] == i
  }

  /** The link out of place `j` of the input. */
  function NextOf(s: seq<Node>, oldHead: Node?, j: nat): Node? {
    if j + 1 < |s| then s[j + 1] else oldHead
  }

  /** The comparison that ends a circular list's walk: the old head stands for NULL. */
  function StopAt(x: Node?, oldHead: Node?): Node? {
    if x == oldHead then null else x
  }

  /** The input of a pass: distinct nodes, the last of which leads to `oldHead`. */
  ghost predicate Input(s: seq<Node>, rank: map<Node, int>, oldHead: Node?) {
    && Ranked(s, rank)
    && (oldHead == null || oldHead == At(s, 0))
  }

  lemma Step(s: seq<Node>, rank: map<Node, int>, oldHead: Node?, j: nat)
    requires Input(s, rank, oldHead) && j < |s|
    ensures StopAt(NextOf(s, oldHead, j), oldHead) == At(s, j + 1)
  {
    if j + 1 < |s| {
      assert rank[s[0]] != rank[s[j + 1]];
    }
  }

  /** The nodes that a pass has not emitted while it merges the rest of the left run,
      `s[ip..mid]`, with the input from `iq` on, still have their input links. */
  ghost predicate Pending(s: seq<Node>, oldHead: Node?, ip: int, mid: int, iq: int, placed: map<Node, int>)
    reads s
  {
    forall j | 0 <= j < |s| && (ip <= j < mid || iq <= j) ::
      s[j].next == NextOf(s, oldHead, j) && s[j] !in placed
  }

  /** The emitted nodes are chained in the order `out`. */
  ghost predicate Emitted(out: seq<Node>, placed: map<Node, int>, linkPrev: bool, list: Node?, tail: Node?)
    reads out
  {
    && Ranked(out, placed)
    && Linked(out)
    && (linkPrev ==> LinkedBack(out))
    && list == At(out, 0)
    && tail == Last(out)
  }

  /** Appends `e` to the list under construction. */
  method Emit(e: Node, list: Node?, tail: Node?, linkPrev: bool,
              ghost out: seq<Node>, ghost placed: map<Node, int>)
    returns (list': Node?, tail': Node?)
    requires Emitted(out, placed, linkPrev, list, tail) && e !in placed
    modifies if tail == null then {e} else {e, tail}
    ensures Emitted(out + [e], placed[e := |out|], linkPrev, list', tail')
  {
    list' := list;
    ghost var out' := out + [e];
    assert forall i | 0 <= i < |out| :: out'[i] == out[i] && out[i] != e;
    if tail != null {
      assert forall i | 0 <= i < |out| - 1 :: out[i] != tail;
      tail.next := e;
    } else {
      list' := e;
    }
    if linkPrev {
      e.prev := tail;
    }
    tail' := e;
    assert Last(out') == e && At(out', 0) == (if out == [] then e else out[0]);
    assert Linked(out') && (linkPrev ==> LinkedBack(out'));
  }

  /** The merge of the input's runs from `ip` to `mid` and from `iq` to `end`. */
  ghost function MergeAt(cmp: Comparison, s: seq<Node>, ip: int, mid: int, iq: int, end: int): seq<Node>
    requires 0 <= ip <= mid <= iq <= end <= |s|
  {
    Merge(cmp, s[ip..mid], s[iq..end])
  }

  ghost function MergeCostAt(cmp: Comparison, s: seq<Node>, ip: int, mid: int, iq: int, end: int): nat
    requires 0 <= ip <= mid <= iq <= end <= |s|
  {
    MergeCost(cmp, s[ip..mid], s[iq..end])
  }

  /** What a pass makes of the input from place `ip` on. */
  ghost function PassAt(cmp: Comparison, k: nat, s: seq<Node>, ip: int): seq<Node>
    requires 0 < k && 0 <= ip <= |s|
  {
    Pass(cmp, k, s[ip..])
  }

  ghost function PassCostAt(cmp: Comparison, k: nat, s: seq<Node>, ip: int): nat
    requires 0 < k && 0 <= ip <= |s|
  {
    PassCost(cmp, k, s[ip..])
  }

  /** What is left to merge once the head of the left run is taken, or of the right one. */
  lemma MergeStep(cmp: Comparison, s: seq<Node>, ip: int, mid: int, iq: int, end: int)
    requires 0 <= ip <= mid <= iq <= end <= |s|
    ensures ip == mid && iq == end ==> MergeAt(cmp, s, ip, mid, iq, end) == []
    ensures ip == mid || iq == end ==> MergeCostAt(cmp, s, ip, mid, iq, end) == 0
    ensures ip < mid && (iq == end || Leq(cmp, s[ip], s[iq])) ==>
      && MergeAt(cmp, s, ip, mid, iq, end) == [s[ip]] + MergeAt(cmp, s, ip + 1, mid, iq, end)
      && (iq < end ==> MergeCostAt(cmp, s, ip, mid, iq, end) == 1 + MergeCostAt(cmp, s, ip + 1, mid, iq, end))
    ensures iq < end && (ip == mid || !Leq(cmp, s[ip], s[iq])) ==>
      && MergeAt(cmp, s, ip, mid, iq, end) == [s[iq]] + MergeAt(cmp, s, ip, mid, iq + 1, end)
      && (ip < mid ==> MergeCostAt(cmp, s, ip, mid, iq, end) == 1 + MergeCostAt(cmp, s, ip, mid, iq + 1, end))
  {
    if ip < mid { assert s[ip..mid] == [s[ip]] + s[ip + 1..mid]; }
    if iq < end { assert s[iq..end] == [s[iq]] + s[iq + 1..end]; }
  }

  lemma ExhaustedCost(cmp: Comparison, s: seq<Node>, ip: int, mid: int, iq: int, end: int)
    requires 0 <= ip <= mid <= iq <= end <= |s|
    ensures ip == mid || iq == end ==> MergeCostAt(cmp, s, ip, mid, iq, end) == 0
  {
  }

  /** Where the loop variables of a merge stand. */
  ghost predicate Cursors(s: seq<Node>, ip: int, mid: int, iq: int, end: int,
                          p: Node?, q: Node?, psize: int, qsize: int)
  {
    && 0 <= ip <= mid <= iq <= end <= |s|
    && psize == mid - ip && end - iq <= qsize
    && (end < |s| ==> qsize == end - iq)
    && (psize > 0 ==> p == s[ip])
    && q == At(s, iq)
  }

  lemma TakeLeft(s: seq<Node>, rank: map<Node, int>, oldHead: Node?, ip: nat, mid: nat, iq: nat, placed: map<Node, int>)
    requires Input(s, rank, oldHead) && Pending(s, oldHead, ip, mid, iq, placed) && ip < mid <= |s|
    ensures Pending(s, oldHead, ip + 1, mid, iq, placed) && s[ip] !in placed
    ensures StopAt(s[ip].next, oldHead) == At(s, ip + 1)
  {
    Step(s, rank, oldHead, ip);
  }

  lemma TakeRight(s: seq<Node>, rank: map<Node, int>, oldHead: Node?, ip: nat, mid: nat, iq: nat, placed: map<Node, int>)
    requires Input(s, rank, oldHead) && Pending(s, oldHead, ip, mid, iq, placed) && iq < |s|
    ensures Pending(s, oldHead, ip, mid, iq + 1, placed) && s[iq] !in placed
    ensures StopAt(s[iq].next, oldHead) == At(s, iq + 1)
  {
    Step(s, rank, oldHead, iq);
  }

  /** Taking the head of the left run: it is left alone, or the comparison lets it go first. */
  lemma LeftTaken(cmp: Comparison, s: seq<Node>, rank: map<Node, int>, oldHead: Node?,
                  ip: int, mid: int, iq: int, end: int, placed: map<Node, int>,
                  p: Node?, q: Node?, psize: nat, qsize: nat)
    requires Input(s, rank, oldHead) && Cursors(s, ip, mid, iq, end, p, q, psize, qsize)
    requires Pending(s, oldHead, ip, mid, iq, placed)
    requires psize > 0 && p != null && (qsize > 0 && q != null ==> cmp(p, q) <= 0)
    ensures ip < mid <= |s| && p == s[ip] && p !in placed && Pending(s, oldHead, ip + 1, mid, iq, placed)
    ensures Cursors(s, ip + 1, mid, iq, end, StopAt(p.next, oldHead), q, psize - 1, qsize)
    ensures MergeAt(cmp, s, ip, mid, iq, end) == [p] + MergeAt(cmp, s, ip + 1, mid, iq, end)
    ensures MergeCostAt(cmp, s, ip, mid, iq, end)
         == (if qsize > 0 && q != null then 1 else 0) + MergeCostAt(cmp, s, ip + 1, mid, iq, end)
  {
    TakeLeft(s, rank, oldHead, ip, mid, iq, placed);
    MergeStep(cmp, s, ip, mid, iq, end);
    ExhaustedCost(cmp, s, ip + 1, mid, iq, end);
    hide MergeAt, MergeCostAt, Pending, Input, StopAt;
  }

  /** Taking the head of the right run. */
  lemma RightTaken(cmp: Comparison, s: seq<Node>, rank: map<Node, int>, oldHead: Node?,
                   ip: int, mid: int, iq: int, end: int, placed: map<Node, int>,
                   p: Node?, q: Node?, psize: nat, qsize: nat)
    requires Input(s, rank, oldHead) && Cursors(s, ip, mid, iq, end, p, q, psize, qsize)
    requires Pending(s, oldHead, ip, mid, iq, placed)
    requires qsize > 0 && q != null && (psize > 0 ==> p != null && cmp(p, q) > 0)
    ensures iq < end <= |s| && q == s[iq] && q !in placed && Pending(s, oldHead, ip, mid, iq + 1, placed)
    ensures Cursors(s, ip, mid, iq + 1, end, p, StopAt(q.next, oldHead), psize, qsize - 1)
    ensures MergeAt(cmp, s, ip, mid, iq, end) == [q] + MergeAt(cmp, s, ip, mid, iq + 1, end)
    ensures MergeCostAt(cmp, s, ip, mid, iq, end)
         == (if psize > 0 then 1 else 0) + MergeCostAt(cmp, s, ip, mid, iq + 1, end)
  {
    TakeRight(s, rank, oldHead, ip, mid, iq, placed);
    MergeStep(cmp, s, ip, mid, iq, end);
    ExhaustedCost(cmp, s, ip, mid, iq + 1, end);
    hide MergeAt, MergeCostAt, Pending, Input, StopAt;
  }

  /** The choice of the next node in the merging loop. */
  method Choose(cmp: Comparison, oldHead: Node?, p: Node?, q: Node?, psize: nat, qsize: nat,
                ghost s: seq<Node>, ghost rank: map<Node, int>, ghost placed: map<Node, int>,
                ghost ip: int, ghost mid: int, ghost iq: int, ghost end: int)
    returns (e: Node, p': Node?, q': Node?, psize': nat, qsize': nat, ghost ip': int, ghost iq': int,
             ghost count: nat)
    requires Input(s, rank, oldHead) && Pending(s, oldHead, ip, mid, iq, placed)
    requires Cursors(s, ip, mid, iq, end, p, q, psize, qsize)
    requires psize > 0 || (qsize > 0 && q != null)
    ensures Cursors(s, ip', mid, iq', end, p', q', psize', qsize')
    ensures psize' + qsize' == psize + qsize - 1
    ensures Pending(s, oldHead, ip', mid, iq', placed) && e !in placed
    ensures if ip' == ip then iq' == iq + 1 && e == s[iq] && iq < |s|
            else ip' == ip + 1 && iq' == iq && e == s[ip] && ip < mid
    ensures MergeAt(cmp, s, ip, mid, iq, end) == [e] + MergeAt(cmp, s, ip', mid, iq', end)
    ensures MergeCostAt(cmp, s, ip, mid, iq, end) == count + MergeCostAt(cmp, s, ip', mid, iq', end)
  {
    assert psize > 0 ==> p != null;
    hide *;
    p', q', psize', qsize' := p, q, psize, qsize;
    ip', iq', count := ip, iq, 0;
    if psize == 0 {
      RightTaken(cmp, s, rank, oldHead, ip, mid, iq, end, placed, p, q, psize, qsize);
      e := q; q' := StopAt(q.next, oldHead); qsize' := qsize - 1;
      iq' := iq + 1;
    } else if qsize == 0 || q == null {
      LeftTaken(cmp, s, rank, oldHead, ip, mid, iq, end, placed, p, q, psize, qsize);
      e := p; p' := StopAt(p.next, oldHead); psize' := psize - 1;
      ip' := ip + 1;
    } else {
      var order := cmp(p, q);
      count := 1;
      if order <= 0 {
        LeftTaken(cmp, s, rank, oldHead, ip, mid, iq, end, placed, p, q, psize, qsize);
        e := p; p' := StopAt(p.next, oldHead); psize' := psize - 1;
        ip' := ip + 1;
      } else {
        RightTaken(cmp, s, rank, oldHead, ip, mid, iq, end, placed, p, q, psize, qsize);
        e := q; q' := StopAt(q.next, oldHead); qsize' := qsize - 1;
        iq' := iq + 1;
      }
    }
  }

  /** One turn of the merging loop. */
  method MergeOne(cmp: Comparison, oldHead: Node?, linkPrev: bool,
                  p: Node?, q: Node?, psize: nat, qsize: nat, list: Node?, tail: Node?,
                  ghost s: seq<Node>, ghost rank: map<Node, int>, ghost ip: int, ghost mid: int, ghost iq: int, ghost end: int,
                  ghost out: seq<Node>, ghost placed: map<Node, int>)
    returns (p': Node?, q': Node?, psize': nat, qsize': nat, list': Node?, tail': Node?, ghost e: Node, ghost ip': int, ghost iq': int,
             ghost count: nat)
    requires Input(s, rank, oldHead) && Pending(s, oldHead, ip, mid, iq, placed)
    requires Cursors(s, ip, mid, iq, end, p, q, psize, qsize)
    requires psize > 0 || (qsize > 0 && q != null)
    requires Emitted(out, placed, linkPrev, list, tail) && (tail != null ==> tail in rank)
    modifies rank.Keys
    ensures Cursors(s, ip', mid, iq', end, p', q', psize', qsize')
    ensures psize' + qsize' == psize + qsize - 1
    ensures Pending(s, oldHead, ip', mid, iq', placed[e := |out|])
    ensures Emitted(out + [e], placed[e := |out|], linkPrev, list', tail') && tail' != null && tail' in rank && e in rank
    ensures MergeAt(cmp, s, ip, mid, iq, end) == [e] + MergeAt(cmp, s, ip', mid, iq', end)
    ensures MergeCostAt(cmp, s, ip, mid, iq, end) == count + MergeCostAt(cmp, s, ip', mid, iq', end)
  {
    var e': Node;
    e', p', q', psize', qsize', ip', iq', count :=
      Choose(cmp, oldHead, p, q, psize, qsize, s, rank, placed, ip, mid, iq, end);
    e := e';
    assert forall j | 0 <= j < |s| && (ip' <= j < mid || iq' <= j) :: s[j] != e by {
      assert e in rank && (rank[e] == ip || rank[e] == iq);
    }
    assert tail != null ==> tail in placed;
    list', tail' := Emit(e', list, tail, linkPrev, out, placed);
    assert tail' == Last(out + [e]) == e;
  }

  /** The loop that merges the run at `p0`, of `psize0` nodes, with at most `insize`
      nodes at `q0`. */
  method MergeRuns(cmp: Comparison, insize: nat, oldHead: Node?, linkPrev: bool,
                   p0: Node, q0: Node?, psize0: nat, list0: Node?, tail0: Node?,
                   ghost s: seq<Node>, ghost rank: map<Node, int>, ghost ip0: int, ghost mid: int, ghost end: int,
                   ghost out0: seq<Node>, ghost placed0: map<Node, int>)
    returns (q: Node?, list: Node?, tail: Node?, ghost out: seq<Node>, ghost placed: map<Node, int>, ghost count: nat)
    requires Input(s, rank, oldHead) && Pending(s, oldHead, ip0, mid, mid, placed0)
    requires psize0 > 0 && Cursors(s, ip0, mid, mid, end, p0, q0, psize0, insize)
    requires Emitted(out0, placed0, linkPrev, list0, tail0) && (tail0 != null ==> tail0 in rank)
    requires placed0.Keys <= rank.Keys
    modifies rank.Keys
    ensures placed.Keys <= rank.Keys
    ensures out == out0 + MergeAt(cmp, s, ip0, mid, mid, end)
    ensures count == MergeCostAt(cmp, s, ip0, mid, mid, end)
    ensures Emitted(out, placed, linkPrev, list, tail) && tail != null && tail in rank
    ensures Pending(s, oldHead, end, end, end, placed)
    ensures if end == |s| then q == null else q == s[end]
  {
    var p: Node?, psize, qsize := p0, psize0, insize;
    q, list, tail, placed := q0, list0, tail0, placed0;
    ghost var ip, iq, rest := ip0, mid, MergeAt(cmp, s, ip0, mid, mid, end);
    ghost var goal, cost := out0 + rest, MergeCostAt(cmp, s, ip0, mid, mid, end);
    ghost var goalCost := cost;
    out, count := out0, 0;
    while psize > 0 || (qsize > 0 && q != null)
      invariant Cursors(s, ip, mid, iq, end, p, q, psize, qsize)
      invariant Pending(s, oldHead, ip, mid, iq, placed)
      invariant Emitted(out, placed, linkPrev, list, tail)
      invariant tail != null ==> tail in rank
      invariant tail == null ==> psize > 0
      invariant placed.Keys <= rank.Keys
      invariant rest == MergeAt(cmp, s, ip, mid, iq, end)
      invariant out + rest == goal
      invariant cost == MergeCostAt(cmp, s, ip, mid, iq, end) && count + cost == goalCost
      decreases psize + qsize
    {
      ghost var e, c;
      p, q, psize, qsize, list, tail, e, ip, iq, c :=
        MergeOne(cmp, oldHead, linkPrev, p, q, psize, qsize, list, tail, s, rank, ip, mid, iq, end, out, placed);
      placed := placed[e := |out|];
      rest := MergeAt(cmp, s, ip, mid, iq, end);
      cost := MergeCostAt(cmp, s, ip, mid, iq, end);
      count := count + c;
      Regroup(out, [e], rest);
      out := out + [e];
    }
    MergeStep(cmp, s, ip, mid, iq, end);
  }

  /** The loop that steps `insize` places along the input, or to its end. */
  method SkipRun(insize: nat, oldHead: Node?, p: Node,
                 ghost s: seq<Node>, ghost rank: map<Node, int>, ghost ip: nat, ghost placed: map<Node, int>)
    returns (q: Node?, psize: nat)
    requires 0 < insize && Input(s, rank, oldHead)
    requires ip < |s| && p == s[ip]
    requires Pending(s, oldHead, ip, ip, ip, placed)
    ensures psize == Min(insize, |s| - ip) && q == At(s, ip + psize)
  {
    q, psize := p, 0;
    for i := 0 to insize
      invariant psize == i && ip + i < |s|
      invariant q == s[ip + i]
    {
      psize := psize + 1;
      Step(s, rank, oldHead, ip + i);
      q := StopAt(q.next, oldHead);
      if q == null {
        break;
      }
    }
  }

  lemma PassStep(cmp: Comparison, k: nat, s: seq<Node>, ip: nat, mid: nat, end: nat)
    requires 0 < k && ip < |s|
    requires mid == ip + Min(k, |s| - ip) && end == Min(mid + k, |s|)
    ensures PassAt(cmp, k, s, ip) == MergeAt(cmp, s, ip, mid, mid, end) + PassAt(cmp, k, s, end)
    ensures PassCostAt(cmp, k, s, ip) == MergeCostAt(cmp, s, ip, mid, mid, end) + PassCostAt(cmp, k, s, end)
  {
    assert s[ip..] == s[ip..mid] + s[mid..end] + s[end..];
    PassCut(cmp, k, s[ip..mid], s[mid..end], s[end..]);
    hide Merge, MergeCost, Pass;
    var t, m, n := s[ip..], mid - ip, end - ip;
    assert t[..m] == s[ip..mid] && t[m..n] == s[mid..end] && t[n..] == s[end..];
  }

  lemma PendingCut(s: seq<Node>, oldHead: Node?, ip: nat, mid: nat, placed: map<Node, int>)
    requires Pending(s, oldHead, ip, ip, ip, placed) && ip <= mid
    ensures Pending(s, oldHead, ip, mid, mid, placed)
  {
  }

  /** The cursors at the start of a merge. */
  lemma CursorsStart(s: seq<Node>, ip: nat, psize: nat, insize: nat, p: Node, q: Node?)
    requires 0 < insize && ip < |s| && p == s[ip]
    requires psize == Min(insize, |s| - ip) && q == At(s, ip + psize)
    ensures var mid := ip + psize;
      var end := Min(mid + insize, |s|);
      Cursors(s, ip, mid, mid, end, p, q, psize, insize) && end == Min(ip + 2 * insize, |s|)
  {
  }

  /** The two runs at place `ip` and what a pass makes of them. */
  lemma TwoRuns(cmp: Comparison, insize: nat, s: seq<Node>, oldHead: Node?, ip: nat, psize: nat,
                p: Node, q: Node?, placed: map<Node, int>) returns (end: nat)
    requires 0 < insize && ip < |s| && p == s[ip] && Pending(s, oldHead, ip, ip, ip, placed)
    requires psize == Min(insize, |s| - ip) && q == At(s, ip + psize)
    ensures 0 < psize && ip + psize <= end <= |s|
    ensures end == if ip + 2 * insize <= |s| then ip + 2 * insize else |s|
    ensures var mid := ip + psize;
      && Pending(s, oldHead, ip, mid, mid, placed) && Cursors(s, ip, mid, mid, end, p, q, psize, insize)
      && PassAt(cmp, insize, s, ip) == MergeAt(cmp, s, ip, mid, mid, end) + PassAt(cmp, insize, s, end)
      && PassCostAt(cmp, insize, s, ip) == MergeCostAt(cmp, s, ip, mid, mid, end) + PassCostAt(cmp, insize, s, end)
  {
    end := Min(ip + psize + insize, |s|);
    PassStep(cmp, insize, s, ip, ip + psize, end);
    PendingCut(s, oldHead, ip, ip + psize, placed);
    CursorsStart(s, ip, psize, insize, p, q);
    hide PassAt, PassCostAt, MergeAt, MergeCostAt, Pending;
  }

  /** One turn of the pass: finds the two runs at `p` and merges them. */
  method MergeNext(cmp: Comparison, insize: nat, oldHead: Node?, linkPrev: bool,
                   p: Node, list: Node?, tail: Node?,
                   ghost s: seq<Node>, ghost rank: map<Node, int>, ghost ip: nat, ghost rest: seq<Node>,
                   ghost out: seq<Node>, ghost placed: map<Node, int>)
    returns (q: Node?, list': Node?, tail': Node?, ghost end: nat, ghost rest': seq<Node>,
             ghost out': seq<Node>, ghost placed': map<Node, int>, ghost count: nat)
    requires 0 < insize && Input(s, rank, oldHead)
    requires ip < |s| && p == s[ip] && Pending(s, oldHead, ip, ip, ip, placed)
    requires Emitted(out, placed, linkPrev, list, tail) && (tail != null ==> tail in rank)
    requires placed.Keys <= rank.Keys
    requires rest == PassAt(cmp, insize, s, ip)
    modifies rank.Keys
    ensures placed'.Keys <= rank.Keys
    ensures end == (if ip + 2 * insize <= |s| then ip + 2 * insize else |s|)
    ensures Pending(s, oldHead, end, end, end, placed') && if end == |s| then q == null else q == s[end]
    ensures Emitted(out', placed', linkPrev, list', tail') && tail' != null && tail' in rank
    ensures rest' == PassAt(cmp, insize, s, end) && out' + rest' == out + rest
    ensures PassCostAt(cmp, insize, s, ip) == count + PassCostAt(cmp, insize, s, end)
  {
    hide *;
    var psize;
    q, psize := SkipRun(insize, oldHead, p, s, rank, ip, placed);
    ghost var mid := ip + psize;
    end := TwoRuns(cmp, insize, s, oldHead, ip, psize, p, q, placed);
    rest' := PassAt(cmp, insize, s, end);
    Regroup(out, MergeAt(cmp, s, ip, mid, mid, end), rest');
    q, list', tail', out', placed', count :=
      MergeRuns(cmp, insize, oldHead, linkPrev, p, q, psize, list, tail, s, rank, ip, mid, end, out, placed);
  }

  lemma StartsPending(s: seq<Node>, oldHead: Node?)
    requires Linked(s) && (s != [] ==> s[|s| - 1].next == oldHead)
    ensures Pending(s, oldHead, 0, 0, 0, map[])
  {
  }

  /** A pass starts at place 0 and has nothing left at the end. */
  lemma WholePass(cmp: Comparison, k: nat, s: seq<Node>)
    requires 0 < k
    ensures PassAt(cmp, k, s, 0) == Pass(cmp, k, s) && PassCostAt(cmp, k, s, 0) == PassCost(cmp, k, s)
    ensures PassAt(cmp, k, s, |s|) == [] && PassCostAt(cmp, k, s, |s|) == 0
  {
    assert s[0..] == s;
  }

  lemma NothingEmitted(linkPrev: bool)
    ensures Emitted([], map[], linkPrev, null, null)
  {
  }

  lemma StartPlaced(out: seq<Node>, placed: map<Node, int>, linkPrev: bool, list: Node?, tail: Node?)
    requires Emitted(out, placed, linkPrev, list, tail) && tail != null
    ensures list != null && list in placed
  {
  }

  /** One pass over the list, up to the closing of its ends. */
  method MergePass(cmp: Comparison, insize: nat, oldHead: Node?, linkPrev: bool, p0: Node,
                   ghost s: seq<Node>, ghost rank: map<Node, int>)
    returns (list: Node, tail: Node, nmerges: nat, ghost placed: map<Node, int>, ghost count: nat)
    requires 0 < insize && Input(s, rank, oldHead)
    requires s != [] && p0 == s[0] && Linked(s) && s[|s| - 1].next == oldHead
    modifies rank.Keys
    ensures Emitted(Pass(cmp, insize, s), placed, linkPrev, list, tail) && placed.Keys <= rank.Keys
    ensures list in rank && tail in rank
    ensures nmerges <= 1 <==> |s| <= 2 * insize
    ensures count == PassCost(cmp, insize, s)
  {
    WholePass(cmp, insize, s);
    NothingEmitted(linkPrev);
    StartsPending(s, oldHead);
    hide *;
    var p: Node?, list': Node?, tail': Node? := p0, null, null;
    nmerges, count := 0, 0;
    ghost var ip, out, rest := 0, [], Pass(cmp, insize, s);
    ghost var goal := rest;
    placed := map[];
    assert out + goal == goal;
    while p != null
      invariant 0 <= ip <= |s| && if ip == |s| then p == null else p == s[ip]
      invariant Pending(s, oldHead, ip, ip, ip, placed)
      invariant Emitted(out, placed, linkPrev, list', tail')
      invariant placed.Keys <= rank.Keys
      invariant if tail' == null then ip == 0 else tail' in rank
      invariant rest == PassAt(cmp, insize, s, ip) && out + rest == goal
      invariant count + PassCostAt(cmp, insize, s, ip) == PassCost(cmp, insize, s)
      invariant nmerges == 0 ==> ip == 0
      invariant nmerges == 1 ==> ip == if 2 * insize <= |s| then 2 * insize else |s|
      invariant nmerges > 1 ==> 2 * insize < |s|
      decreases |s| - ip
    {
      nmerges := nmerges + 1;
      ghost var c;
      p, list', tail', ip, rest, out, placed, c :=
        MergeNext(cmp, insize, oldHead, linkPrev, p, list', tail', s, rank, ip, rest, out, placed);
      count := count + c;
    }
    assert out == goal;
    StartPlaced(out, placed, linkPrev, list', tail');
    list, tail := list', tail';
  }

  // ----- the three macros -----

  ghost function Ranks(s: seq<Node>): (rank: map<Node, int>)
    requires Distinct(s)
    ensures Ranked(s, rank)
    ensures rank.Keys == set x | x in s
  {
    map i | 0 <= i < |s| :: s[i] := i
  }

  /** A finished pass is the input of the next one once its ends are closed. */
  lemma Closed(out: seq<Node>, placed: map<Node, int>, linkPrev: bool, list: Node, tail: Node)
    requires Emitted(out, placed, linkPrev, list, tail)
    ensures out != [] && list == out[0] && tail == out[|out| - 1]
    ensures Distinct(out) && forall x | x in out :: x in placed
  {
  }

  /** What the passes still ahead make of `cur` is the sorted list, and what they still
      cost is what is missing from `count`. */
  ghost predicate Ahead(cmp: Comparison, k: nat, cur: seq<Node>, looping: bool, count: nat, s: seq<Node>)
    requires 0 < k
  {
    && |cur| == |s| && (looping ==> k <= |s|)
    && MergeSort(cmp, s) == (if looping then Passes(cmp, k, cur) else cur)
    && SortCost(cmp, s) == count + if looping then PassesCost(cmp, k, cur) else 0
  }

  lemma Start(cmp: Comparison, s: seq<Node>)
    ensures s != [] ==> Ahead(cmp, 1, s, true, 0, s)
    ensures s == [] ==> MergeSort(cmp, s) == [] && SortCost(cmp, s) == 0
    ensures multiset(MergeSort(cmp, s)) == multiset(s)
  {
    MergeSortPermutes(cmp, s);
  }

  lemma Advance(cmp: Comparison, k: nat, cur: seq<Node>, count: nat, s: seq<Node>)
    requires 0 < k && Ahead(cmp, k, cur, true, count, s)
    ensures |cur| == |s| && cur != [] && k <= |s|
    ensures Ahead(cmp, 2 * k, Pass(cmp, k, cur), |cur| > 2 * k, count + PassCost(cmp, k, cur), s)
  {
    hide Pass, PassCost, MergeSort, SortCost;
  }

  lemma Arrived(cmp: Comparison, k: nat, cur: seq<Node>, count: nat, s: seq<Node>)
    requires 0 < k && Ahead(cmp, k, cur, false, count, s)
    ensures MergeSort(cmp, s) == cur && SortCost(cmp, s) == count
  {
  }

  /** A pass of LL_SORT2: afterwards the list has its shape again. */
  method SinglyPass(cmp: Comparison, insize: nat, head: Node, ghost s: seq<Node>, ghost rank: map<Node, int>)
    returns (list: Node, nmerges: nat, ghost rank': map<Node, int>, ghost count: nat)
    requires 0 < insize && s != [] && SinglyLinked(head, s) && Ranked(s, rank)
    modifies rank.Keys
    ensures SinglyLinked(list, Pass(cmp, insize, s)) && Ranked(Pass(cmp, insize, s), rank')
    ensures rank'.Keys <= rank.Keys
    ensures nmerges <= 1 <==> |s| <= 2 * insize
    ensures count == PassCost(cmp, insize, s)
  {
    hide Pass, PassCost;
    var tail;
    list, tail, nmerges, rank', count := MergePass(cmp, insize, null, false, head, s, rank);
    Closed(Pass(cmp, insize, s), rank', false, list, tail);
    tail.next := null;
  }

  /** The outer loop of LL_SORT2, on a list that is not empty. */
  method SinglyPasses(head: Node, cmp: Comparison, ghost s: seq<Node>, ghost rank0: map<Node, int>)
    returns (list: Node, ghost count: nat)
    requires SinglyLinked(head, s) && s != [] && Ranked(s, rank0)
    modifies rank0.Keys
    ensures SinglyLinked(list, MergeSort(cmp, s)) && count == SortCost(cmp, s)
  {
    Start(cmp, s);
    hide *;
    var insize, looping := 1, true;
    list, count := head, 0;
    ghost var cur, rank := s, rank0;
    while looping
      invariant 0 < insize <= 2 * |s| && SinglyLinked(list, cur)
      invariant Ranked(cur, rank) && rank.Keys <= rank0.Keys
      invariant Ahead(cmp, insize, cur, looping, count, s)
      decreases looping, |s| - insize
    {
      var nmerges;
      ghost var c;
      Advance(cmp, insize, cur, count, s);
      list, nmerges, rank, c := SinglyPass(cmp, insize, list, cur, rank);
      cur := Pass(cmp, insize, cur);
      count := count + c;
      if nmerges <= 1 {
        looping := false;
      }
      insize := insize * 2;
    }
    Arrived(cmp, insize, cur, count, s);
  }

  /** LL_SORT2. */
  method SortSingly(head: Node?, cmp: Comparison, ghost s: seq<Node>) returns (list: Node?, ghost count: nat)
    requires SinglyLinked(head, s)
    modifies s
    ensures SinglyLinked(list, MergeSort(cmp, s)) && multiset(MergeSort(cmp, s)) == multiset(s)
    ensures count == SortCost(cmp, s)
  {
    Start(cmp, s);
    hide MergeSort, SortCost;
    list, count := head, 0;
    if list != null {
      list, count := SinglyPasses(list, cmp, s, Ranks(s));
    }
  }

  /** A pass of DL_SORT2: afterwards the list has its shape again. */
  method DoublyPass(cmp: Comparison, insize: nat, head: Node, ghost s: seq<Node>, ghost rank: map<Node, int>)
    returns (list: Node, nmerges: nat, ghost rank': map<Node, int>, ghost count: nat)
    requires 0 < insize && s != [] && DoublyLinked(head, s) && Ranked(s, rank)
    modifies rank.Keys
    ensures DoublyLinked(list, Pass(cmp, insize, s)) && Ranked(Pass(cmp, insize, s), rank')
    ensures rank'.Keys <= rank.Keys
    ensures nmerges <= 1 <==> |s| <= 2 * insize
    ensures count == PassCost(cmp, insize, s)
  {
    hide Pass, PassCost;
    var tail;
    list, tail, nmerges, rank', count := MergePass(cmp, insize, null, true, head, s, rank);
    Closed(Pass(cmp, insize, s), rank', true, list, tail);
    list.prev := tail;
    tail.next := null;
  }

  /** The outer loop of DL_SORT2, on a list that is not empty. */
  method DoublyPasses(head: Node, cmp: Comparison, ghost s: seq<Node>, ghost rank0: map<Node, int>)
    returns (list: Node, ghost count: nat)
    requires DoublyLinked(head, s) && s != [] && Ranked(s, rank0)
    modifies rank0.Keys
    ensures DoublyLinked(list, MergeSort(cmp, s)) && count == SortCost(cmp, s)
  {
    Start(cmp, s);
    hide *;
    var insize, looping := 1, true;
    list, count := head, 0;
    ghost var cur, rank := s, rank0;
    while looping
      invariant 0 < insize <= 2 * |s| && DoublyLinked(list, cur)
      invariant Ranked(cur, rank) && rank.Keys <= rank0.Keys
      invariant Ahead(cmp, insize, cur, looping, count, s)
      decreases looping, |s| - insize
    {
      var nmerges;
      ghost var c;
      Advance(cmp, insize, cur, count, s);
      list, nmerges, rank, c := DoublyPass(cmp, insize, list, cur, rank);
      cur := Pass(cmp, insize, cur);
      count := count + c;
      if nmerges <= 1 {
        looping := false;
      }
      insize := insize * 2;
    }
    Arrived(cmp, insize, cur, count, s);
  }

  /** DL_SORT2. */
  method SortDoubly(head: Node?, cmp: Comparison, ghost s: seq<Node>) returns (list: Node?, ghost count: nat)
    requires DoublyLinked(head, s)
    modifies s
    ensures DoublyLinked(list, MergeSort(cmp, s)) && multiset(MergeSort(cmp, s)) == multiset(s)
    ensures count == SortCost(cmp, s)
  {
    Start(cmp, s);
    hide MergeSort, SortCost;
    list, count := head, 0;
    if list != null {
      list, count := DoublyPasses(list, cmp, s, Ranks(s));
    }
  }

  /** A pass of CDL_SORT2: afterwards the list has its shape again. */
  method CircularPass(cmp: Comparison, insize: nat, head: Node, ghost s: seq<Node>, ghost rank: map<Node, int>)
    returns (list: Node, nmerges: nat, ghost rank': map<Node, int>, ghost count: nat)
    requires 0 < insize && s != [] && Circular(head, s) && Ranked(s, rank)
    modifies rank.Keys
    ensures Circular(list, Pass(cmp, insize, s)) && Ranked(Pass(cmp, insize, s), rank')
    ensures rank'.Keys <= rank.Keys
    ensures nmerges <= 1 <==> |s| <= 2 * insize
    ensures count == PassCost(cmp, insize, s)
  {
    hide Pass, PassCost;
    var tail;
    var oldHead := head;
    list, tail, nmerges, rank', count := MergePass(cmp, insize, oldHead, true, head, s, rank);
    Closed(Pass(cmp, insize, s), rank', true, list, tail);
    list.prev := tail;
    tail.next := list;
  }

  /** The outer loop of CDL_SORT2, on a list that is not empty. */
  method CircularPasses(head: Node, cmp: Comparison, ghost s: seq<Node>, ghost rank0: map<Node, int>)
    returns (list: Node, ghost count: nat)
    requires Circular(head, s) && s != [] && Ranked(s, rank0)
    modifies rank0.Keys
    ensures Circular(list, MergeSort(cmp, s)) && count == SortCost(cmp, s)
  {
    Start(cmp, s);
    hide *;
    var insize, looping := 1, true;
    list, count := head, 0;
    ghost var cur, rank := s, rank0;
    while looping
      invariant 0 < insize <= 2 * |s| && Circular(list, cur)
      invariant Ranked(cur, rank) && rank.Keys <= rank0.Keys
      invariant Ahead(cmp, insize, cur, looping, count, s)
      decreases looping, |s| - insize
    {
      var nmerges;
      ghost var c;
      Advance(cmp, insize, cur, count, s);
      list, nmerges, rank, c := CircularPass(cmp, insize, list, cur, rank);
      cur := Pass(cmp, insize, cur);
      count := count + c;
      if nmerges <= 1 {
        looping := false;
      }
      insize := insize * 2;
    }
    Arrived(cmp, insize, cur, count, s);
  }

  /** CDL_SORT2. */
  method SortCircular(head: Node?, cmp: Comparison, ghost s: seq<Node>) returns (list: Node?, ghost count: nat)
    requires Circular(head, s)
    modifies s
    ensures Circular(list, MergeSort(cmp, s)) && multiset(MergeSort(cmp, s)) == multiset(s)
    ensures count == SortCost(cmp, s)
  {
    Start(cmp, s);
    hide MergeSort, SortCost;
    list, count := head, 0;
    if list != null {
      list, count := CircularPasses(list, cmp, s, Ranks(s));
    }
  }
}
