/** The configured options as a linked list, and udhcp_find_option, which takes the list
    to be in ascending order of codes. */
module OptionSets {
  import opened OptionSpec
  import opened OptionPacket

  class OptionSet {
    const data: seq<byte>
    var next: OptionSet?

    constructor (data: seq<byte>, next: OptionSet?)
      ensures this.data == data && this.next == next
    {
      this.data, this.next := data, next;
    }
  }

  function At(sets: seq<OptionSet>, k: nat): OptionSet? {
    if k < |sets| then sets[k] else null
  }

  ghost predicate Chained(list: OptionSet?, sets: seq<OptionSet>)
    reads sets
  {
    && list == At(sets, 0)
    && (forall k {:trigger sets[k].next} | 0 <= k < |sets| :: sets[k].next == At(sets, k + 1))
    && AreOptions(sets)
  }

  ghost predicate AreOptions(sets: seq<OptionSet>) {
    forall k | 0 <= k < |sets| :: IsOption(sets[k].data)
  }

  ghost function Codes(sets: seq<OptionSet>): (r: seq<byte>)
    requires AreOptions(sets)
    ensures |r| == |sets| && forall k | 0 <= k < |sets| :: r[k] == sets[k].data[0]
  {
    seq(|sets|, k requires 0 <= k < |sets| && AreOptions(sets) => sets[k].data[0])
  }

  /** The code stands at place `k` and only smaller ones stand before it. */
  predicate InReach(codes: seq<byte>, code: byte, k: int) {
    0 <= k < |codes| && codes[k] == code && forall j | 0 <= j < k :: codes[j] < code
  }

  ghost predicate Reached(codes: seq<byte>, code: byte) {
    exists i :: InReach(codes, code, i)
  }

  /** udhcp_find_option. */
  method FindOption(list: OptionSet?, code: byte, ghost sets: seq<OptionSet>) returns (found: OptionSet?)
    requires Chained(list, sets)
    ensures found == null ==> !Reached(Codes(sets), code)
    ensures found != null ==> exists k :: InReach(Codes(sets), code, k) && found == sets[k]
  {
    ghost var k, codes := 0, Codes(sets);
    found := list;
    while found != null && found.data[0] < code
      invariant k <= |sets| && found == At(sets, k)
      invariant forall j | 0 <= j < k :: codes[j] < code
      decreases |sets| - k
    {
      found := found.next;
      k := k + 1;
    }
    if found != null && found.data[0] == code {
      assert InReach(codes, code, k);
    } else {
      assert k < |codes| ==> codes[k] > code;
      found := null;
    }
  }

  predicate Ascending(codes: seq<byte>) {
    forall i, j | 0 <= i < j < |codes| :: codes[i] <= codes[j]
  }

  /** The place where a code stands first. */
  lemma {:induction false} FirstPlace(codes: seq<byte>, k: nat) returns (i: nat)
    requires k < |codes|
    ensures i <= k && codes[i] == codes[k] && forall j | 0 <= j < i :: codes[j] != codes[k]
  {
    i := 0;
    while codes[i] != codes[k]
      invariant i <= k && forall j | 0 <= j < i :: codes[j] != codes[k]
      decreases k - i
    {
      i := i + 1;
    }
  }

  ghost predicate AllReached(codes: seq<byte>) {
    forall k | 0 <= k < |codes| :: Reached(codes, codes[k])
  }

  /** Each code repeats an earlier one or is larger than all before it. */
  predicate StepsUp(codes: seq<byte>) {
    forall k | 0 <= k < |codes| :: codes[k] in codes[..k] || forall j | 0 <= j < k :: codes[j] < codes[k]
  }

  lemma InReachFirst(codes: seq<byte>, k: nat, i: nat)
    requires k < |codes| && codes[k] !in codes[..k] && InReach(codes, codes[k], i)
    ensures forall j | 0 <= j < k :: codes[j] < codes[k]
  {
    assert forall j | 0 <= j < k :: codes[..k][j] == codes[j];
  }

  lemma ReachedStepsUp(codes: seq<byte>)
    requires AllReached(codes)
    ensures StepsUp(codes)
  {
    forall k | 0 <= k < |codes| && codes[k] !in codes[..k] ensures forall j | 0 <= j < k :: codes[j] < codes[k] {
      var i :| InReach(codes, codes[k], i);
      InReachFirst(codes, k, i);
    }
  }

  lemma SteppingReached(codes: seq<byte>)
    requires StepsUp(codes) || Ascending(codes)
    ensures AllReached(codes)
  {
    forall k | 0 <= k < |codes| ensures Reached(codes, codes[k]) {
      var i := FirstPlace(codes, k);
      assert forall j | 0 <= j < i :: codes[..i][j] == codes[j];
      assert InReach(codes, codes[k], i);
    }
  }

  /** The search finds every option of the list if and only if the codes step up; in an
      ascending list they do. */
  lemma FindsAllIff(codes: seq<byte>)
    ensures AllReached(codes) <==> StepsUp(codes)
    ensures Ascending(codes) ==> AllReached(codes)
  {
    if AllReached(codes) {
      ReachedStepsUp(codes);
    } else if StepsUp(codes) || Ascending(codes) {
      SteppingReached(codes);
    }
  }

  /** The shortest list in which an option is missed. */
  lemma MissedOutOfOrder()
    ensures !Reached([5, 3], 3) && !AllReached([5, 3])
  {
    var codes: seq<byte> := [5, 3];
    forall i ensures !InReach(codes, 3, i) {
      assert codes[0] == 5 && codes[1] == 3;
    }
    assert codes[1] == 3;
  }
}
