/** Two small checks of the client: the prefix length of a netmask, and host names. */
module OptionChecks {
  import opened Wrappers
  import opened OptionSpec

  // ----- mton -----

  /** A 32-bit word, most significant bit first. */
  type Word = w: seq<bool> | |w| == 32 witness seq(32, _ => false)

  function Ones(w: seq<bool>): nat {
    if w == [] then 0 else (if w[0] then 1 else 0) + Ones(w[1..])
  }

  /** How many bits there are up to the last one that is set. */
  function UpToLastSet(w: seq<bool>): (n: nat)
    ensures n <= |w|
    ensures n > 0 ==> w[n - 1]
    ensures forall k | n <= k < |w| :: !w[k]
  {
    if w == [] then 0
    else if w[|w| - 1] then |w|
    else UpToLastSet(w[..|w| - 1])
  }

  lemma {:induction false} LastSetAtMost(w: seq<bool>, i: nat)
    requires i <= |w| && forall k | i <= k < |w| :: !w[k]
    ensures UpToLastSet(w) <= i
  {
    if |w| > i {
      LastSetAtMost(w[..|w| - 1], i);
    }
  }

  /** mton: shifts left until nothing is left.  Its comment says that it counts bits; what
      it finds is the place of the last one. */
  method Mton(mask: Word) returns (i: nat)
    ensures i == UpToLastSet(mask)
  {
    i := 0;
    var w := mask;
    while exists k | 0 <= k < 32 :: w[k]
      invariant i <= 32
      invariant w == mask[i..] + seq(i, _ => false)
      invariant i <= UpToLastSet(mask)
      decreases 32 - i
    {
      ghost var k :| 0 <= k < 32 && w[k];
      assert mask[i + k];
      i := i + 1;
      w := w[1..] + [false];
    }
    assert forall k | i <= k < 32 :: mask[k] == w[k - i];
    LastSetAtMost(mask, i);
  }

  /** The netmask of a prefix of `n` bits. */
  predicate IsPrefixMask(w: seq<bool>, n: nat) {
    n <= |w| && forall k | 0 <= k < |w| :: w[k] <==> k < n
  }

  lemma {:induction false} OnesBounded(w: seq<bool>)
    ensures Ones(w) <= |w|
    ensures Ones(w) == |w| <==> forall k | 0 <= k < |w| :: w[k]
  {
    if w != [] {
      OnesBounded(w[1..]);
      assert (forall k | 0 <= k < |w| :: w[k]) ==> forall k | 0 <= k < |w| - 1 :: w[1..][k];
      if w[0] && forall k | 0 <= k < |w| - 1 :: w[1..][k] {
        forall k | 0 <= k < |w| ensures w[k] {
          if k > 0 { assert w[1..][k - 1]; }
        }
      }
    }
  }

  lemma {:induction false} OnesConcat(a: seq<bool>, b: seq<bool>)
    ensures Ones(a + b) == Ones(a) + Ones(b)
  {
    if a == [] {
      assert a + b == b;
    } else {
      assert (a + b)[1..] == a[1..] + b;
      OnesConcat(a[1..], b);
    }
  }

  lemma {:induction false} OnesOfZeros(w: seq<bool>)
    requires forall k | 0 <= k < |w| :: !w[k]
    ensures Ones(w) == 0
  {
    if w != [] {
      OnesOfZeros(w[1..]);
    }
  }

  /** The result is the number of set bits exactly for the netmasks of prefixes. */
  lemma MtonCountsBitsIff(mask: Word)
    ensures UpToLastSet(mask) == Ones(mask) <==> exists n :: IsPrefixMask(mask, n)
    ensures forall n | IsPrefixMask(mask, n) :: UpToLastSet(mask) == n
  {
    var n := UpToLastSet(mask);
    assert mask == mask[..n] + mask[n..];
    OnesConcat(mask[..n], mask[n..]);
    OnesOfZeros(mask[n..]);
    OnesBounded(mask[..n]);
    if UpToLastSet(mask) == Ones(mask) {
      assert forall k | 0 <= k < n :: mask[..n][k];
      assert IsPrefixMask(mask, n);
    }
    forall m | IsPrefixMask(mask, m) ensures n == m {
      LastSetAtMost(mask, m);
      assert m > 0 ==> mask[m - 1];
    }
  }

  lemma {:induction false} OnesOfOnes(w: seq<bool>)
    requires forall k | 0 <= k < |w| :: w[k]
    ensures Ones(w) == |w|
  {
    if w != [] {
      OnesOfOnes(w[1..]);
    }
  }

  /** The mask 255.0.255.0 has 16 bits, the last of them in place 24. */
  lemma MtonMiscounts() returns (mask: Word)
    ensures mask == seq(8, _ => true) + seq(8, _ => false) + seq(8, _ => true) + seq(8, _ => false)
    ensures UpToLastSet(mask) == 24 && Ones(mask) == 16
  {
    var ones, zeros := seq(8, _ => true), seq(8, _ => false);
    mask := ones + zeros + ones + zeros;
    LastSetAtMost(mask, 24);
    assert mask[23];
    OnesOfOnes(ones);
    OnesOfZeros(zeros);
    OnesConcat(ones, zeros);
    OnesConcat(ones + zeros, ones);
    OnesConcat(ones + zeros + ones, zeros);
  }

  // ----- good_hostname -----

  /** `ch | 0x20` */
  function Or20(ch: byte): byte {
    if ch / 0x20 % 2 == 1 then ch else ch + 0x20
  }

  predicate IsLetter(ch: byte) {
    ('A' as int <= ch <= 'Z' as int) || ('a' as int <= ch <= 'z' as int)
  }

  predicate IsNameByte(ch: byte) {
    IsLetter(ch) || ('0' as int <= ch <= '9' as int) || ch == '-' as int || ch == '_' as int
  }

  const DOT: byte := '.' as int

  /** Begins with a letter and goes on with letters, digits, hyphens and underscores. */
  predicate GoodLabel(part: seq<byte>) {
    part != [] && IsLetter(part[0]) && forall ch | ch in part :: IsNameByte(ch)
  }

  lemma OrMeansLetter(ch: byte)
    ensures 'a' as int <= Or20(ch) <= 'z' as int <==> IsLetter(ch)
  {
  }

  /** valid_domain_label: the place behind the label that starts at `start`, at a dot or
      at the end of the name, or None. */
  method ValidDomainLabel(name: seq<byte>, start: nat) returns (r: Option<nat>)
    requires start <= |name| && forall ch | ch in name :: ch != 0
    ensures r.Some? ==> start <= r.value <= |name| && (r.value < |name| ==> name[r.value] == DOT)
    ensures r.Some? ==> GoodLabel(name[start..r.value]) && DOT !in name[start..r.value]
    ensures r == None ==> !GoodLabel(Split(name[start..], DOT)[0])
  {
    var pos := 0;
    while true
      invariant start + pos <= |name|
      invariant forall ch | ch in name[start..start + pos] :: IsNameByte(ch)
      invariant pos > 0 ==> IsLetter(name[start])
      decreases |name| - pos
    {
      ghost var part := name[start..start + pos];
      assert name[start..] == part + name[start + pos..];
      var ch: byte := if start + pos < |name| then name[start + pos] else 0;
      OrMeansLetter(ch);
      if Or20(ch) < 'a' as int || Or20(ch) > 'z' as int {
        if pos == 0 {
          NotALabel(name[start..], 0);
          return None;
        }
        if ch < '0' as int || ch > '9' as int {
          if start + pos == |name| || ch == DOT {
            return Some(start + pos);
          }
          if ch != '-' as int && ch != '_' as int {
            assert name[start..][..pos] == part && !IsNameByte(DOT) && DOT !in part;
            assert name[start..][pos] == ch && !IsNameByte(ch);
            NotALabel(name[start..], pos);
            return None;
          }
        }
      }
      assert name[start..start + pos + 1] == part + [ch];
      pos := pos + 1;
    }
  }

  /** A byte that has no place in a label spoils the first one. */
  lemma {:induction false} NotALabel(s: seq<byte>, i: nat)
    requires if i == 0 then s == [] || !IsLetter(s[0])
             else i < |s| && DOT !in s[..i] && s[i] != DOT && !IsNameByte(s[i])
    ensures !GoodLabel(Split(s, DOT)[0])
  {
    if i > 0 {
      assert s[..i][0] != DOT;
      StaysBad(s, i);
    }
  }

  lemma {:induction false} StaysBad(s: seq<byte>, i: nat)
    requires i < |s| && DOT !in s[..i] && s[i] != DOT && !IsNameByte(s[i])
    ensures s[i] in Split(s, DOT)[0]
  {
    if i > 0 {
      assert s[..i][0] != DOT && s[1..][..i - 1] == s[..i][1..];
      StaysBad(s[1..], i - 1);
    }
  }

  /** Every part between dots is a good label. */
  predicate GoodName(name: seq<byte>) {
    forall part | part in Split(name, DOT) :: GoodLabel(part)
  }

  lemma ShortNames(a: byte, b: byte)
    requires a != 46 && b != 46
    ensures Split([a], DOT) == [[a]] && Split([a, b], DOT) == [[a, b]]
    ensures Split([a, 46, b], DOT) == [[a], [b]]
    ensures Split([], DOT) == [[]] && Split([46, b], DOT) == [[], [b]] && Split([a, 46], DOT) == [[a], []]
  {
    SplitFirst([a], [], DOT);
    SplitFirst([b], [], DOT);
    SplitFirst([a, b], [], DOT);
    SplitFirst([], [], DOT);
    SplitFirst([], [46, b], DOT);
    SplitFirst([a], [46, b], DOT);
    SplitFirst([a], [46], DOT);
    assert [a] + [] == [a] && [b] + [] == [b] && [a, b] + [] == [a, b] && [] + [46, b] == [46, b];
    assert [a] + [46, b] == [a, 46, b] && [a] + [46] == [a, 46] && [46, b][1..] == [b] && [46][1..] == [];
    hide Split;
  }

  lemma ShortLabels(a: byte, b: byte)
    ensures GoodLabel([a]) <==> (65 <= a <= 90 || 97 <= a <= 122)
    ensures GoodLabel([a, b]) <==>
      ((65 <= a <= 90 || 97 <= a <= 122)
       && (65 <= b <= 90 || 97 <= b <= 122 || 48 <= b <= 57 || b == 45 || b == 95))
    ensures !GoodLabel([])
  {
    var ab := [a, b];
    assert ab[0] in ab && ab[1] in ab;
  }

  /** Letters, digits, the hyphen 45 and the underscore 95, of which only letters begin a
      label; names are labels between dots, 46, and none is empty. */
  lemma NamesByBytes(a: byte, b: byte)
    requires a != 46 && b != 46
    ensures GoodName([a]) <==> (65 <= a <= 90 || 97 <= a <= 122)
    ensures GoodName([a, b]) <==>
      ((65 <= a <= 90 || 97 <= a <= 122)
       && (65 <= b <= 90 || 97 <= b <= 122 || 48 <= b <= 57 || b == 45 || b == 95))
    ensures GoodName([a, 46, b]) <==> GoodName([a]) && GoodName([b])
    ensures !GoodName([]) && !GoodName([46, b]) && !GoodName([a, 46])
  {
    ShortNames(a, b);
    ShortNames(b, b);
    ShortLabels(a, b);
    hide Split, GoodLabel, GoodName;
    OneLabel([a], [a]);
    OneLabel([b], [b]);
    OneLabel([a, b], [a, b]);
    OneLabel([], []);
    TwoLabels([a, 46, b], [a], [b]);
    TwoLabels([46, b], [], [b]);
    TwoLabels([a, 46], [a], []);
  }

  lemma TwoLabels(name: seq<byte>, first: seq<byte>, second: seq<byte>)
    requires Split(name, DOT) == [first, second]
    ensures GoodName(name) <==> GoodLabel(first) && GoodLabel(second)
  {
    var parts := Split(name, DOT);
    assert parts[0] in parts && parts[1] in parts;
    hide Split, GoodLabel;
  }

  lemma OneLabel(name: seq<byte>, part: seq<byte>)
    requires Split(name, DOT) == [part]
    ensures GoodName(name) <==> GoodLabel(part)
  {
    assert part in Split(name, DOT);
    hide Split, GoodLabel;
  }

  /** good_hostname: every label between dots is good, an empty one never is. */
  method GoodHostname(name: seq<byte>) returns (good: bool)
    requires forall ch | ch in name :: ch != 0
    ensures good <==> GoodName(name)
  {
    hide Split, GoodLabel;
    var at := 0;
    assert name[0..] == name;
    while true
      invariant 0 <= at <= |name|
      invariant (forall part | part in Split(name, DOT) :: GoodLabel(part))
           <==> (forall part | part in Split(name[at..], DOT) :: GoodLabel(part))
      decreases |name| - at
    {
      var r := ValidDomainLabel(name, at);
      if r == None {
        assert Split(name[at..], DOT)[0] in Split(name[at..], DOT);
        return false;
      }
      var end := r.value;
      assert name[at..] == name[at..end] + name[end..];
      SplitFirst(name[at..end], name[end..], DOT);
      if end == |name| {
        return true;
      }
      assert name[end..][1..] == name[end + 1..];
      at := end + 1;
    }
  }
}
