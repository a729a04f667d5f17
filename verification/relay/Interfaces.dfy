/** make_iface_list: the comma-separated client interfaces, cut apart in place. */
module RelayInterfaces {
  import opened Wrappers

  function Commas(s: string): nat {
    if s == [] then 0 else (if s[0] == ',' then 1 else 0) + Commas(s[1..])
  }

  lemma {:induction false} SplitCount(s: string)
    ensures |Split(s, ',')| == Commas(s) + 1
  {
    if s != [] {
      SplitCount(s[1..]);
    }
  }

  /** The C string at place `i` of a buffer is `text`. */
  predicate StringAt(buffer: seq<char>, i: nat, text: string) {
    && i + |text| < |buffer|
    && buffer[i..i + |text|] == text
    && buffer[i + |text|] == '\0'
  }

  /** What the loop has made of the copy of `s` up to place `p`. */
  predicate CutUpTo(buffer: seq<char>, s: string, p: nat)
    requires |buffer| == |s| + 1
  {
    && (forall k | 0 <= k < |s| :: buffer[k] == if k < p && s[k] == ',' then '\0' else s[k])
    && buffer[|s|] == '\0'
  }

  /** An entry of the list: the server's interface, or a place in the cut copy. */
  datatype Iface = Server | Client(start: nat)

  /** The number of interfaces: the server's and those between commas. */
  method CountInterfaces(s: string) returns (cn: nat)
    ensures cn == 1 + |Split(s, ',')|
  {
    cn := 2;
    var k := 0;
    assert s[0..] == s;
    while k < |s|
      invariant 0 <= k <= |s| && cn + Commas(s[k..]) == 2 + Commas(s)
    {
      if s[k] == ',' {
        cn := cn + 1;
      }
      assert s[k..][1..] == s[k + 1..];
      k := k + 1;
    }
    SplitCount(s);
  }

  /** Part `j` can be read through entry `j + 1`. */
  predicate PartAt(list: seq<Iface>, buffer: seq<char>, j: nat, text: string) {
    j + 1 < |list| && list[j + 1].Client? && StringAt(buffer, list[j + 1].start, text)
  }

  /** The first parts are stored, each ended by a NUL below place `p`. */
  predicate Stored(list: seq<Iface>, buffer: seq<char>, done: seq<string>, p: nat) {
    && |done| < |list|
    && forall j | 0 <= j < |done| :: PartAt(list, buffer, j, done[j]) && list[j + 1].start + |done[j]| < p
  }

  /** Cutting at a comma finishes the part that starts at `start`. */
  lemma StoreCut(list: seq<Iface>, buffer: seq<char>, s: string, done: seq<string>, start: nat, p: nat)
    requires start <= p < |s| && s[p] == ',' && ',' !in s[start..p]
    requires |buffer| == |s| + 1 && CutUpTo(buffer, s, p) && Stored(list, buffer, done, p)
    requires |done| + 1 < |list| && list[|done| + 1] == Client(start)
    ensures CutUpTo(buffer[p := '\0'], s, p + 1)
    ensures Stored(list, buffer[p := '\0'], done + [s[start..p]], p + 1)
  {
    var cut, done' := buffer[p := '\0'], done + [s[start..p]];
    forall j | 0 <= j < |done'|
      ensures PartAt(list, cut, j, done'[j]) && list[j + 1].start + |done'[j]| < p + 1
    {
      if j < |done| {
        assert PartAt(list, buffer, j, done[j]);
        var i, n := list[j + 1].start, |done[j]|;
        assert cut[i..i + n] == buffer[i..i + n];
      } else {
        forall k | start <= k < p ensures cut[k] == s[k] {
          assert s[k] == s[start..p][k - start];
        }
        assert cut[start..p] == s[start..p];
      }
    }
  }

  /** Storing one more start behind the finished parts changes none of them. */
  lemma StoreStart(list: seq<Iface>, buffer: seq<char>, done: seq<string>, p: nat, i: nat)
    requires Stored(list, buffer, done, p) && |done| < i < |list|
    ensures Stored(list[i := Client(p)], buffer, done, p)
  {
    forall j | 0 <= j < |done| ensures PartAt(list[i := Client(p)], buffer, j, done[j]) {
      assert PartAt(list, buffer, j, done[j]);
    }
  }

  /** Without a further comma the last part reaches to the end. */
  lemma LastPart(buffer: seq<char>, s: string, start: nat, p: nat)
    requires start <= p <= |s| && |buffer| == |s| + 1 && CutUpTo(buffer, s, p)
    requires |Split(s[start..], ',')| == 1
    ensures Split(s[start..], ',') == [s[start..]] && StringAt(buffer, start, s[start..])
  {
    SplitCount(s[start..]);
    NoCommas(s[start..]);
    SplitFirst(s[start..], [], ',');
    assert s[start..] + [] == s[start..];
    forall k | start <= k < |s| ensures buffer[k] == s[k] {
      assert s[k] == s[start..][k - start];
    }
    assert buffer[start..|s|] == s[start..];
  }

  lemma {:induction false} NoCommas(s: string)
    requires Commas(s) == 0
    ensures ',' !in s
  {
    if s != [] {
      NoCommas(s[1..]);
      assert s == [s[0]] + s[1..];
    }
  }

  /** `s[-1] = '\0'; iface_list[i] = s;` behind the comma at place `p`. */
  method CutAt(list: array<Iface>, copy: array<char>, i: nat, p: nat,
               ghost s: string, ghost done: seq<string>, ghost start: nat)
    requires start <= p < |s| && s[p] == ',' && ',' !in s[start..p]
    requires copy.Length == |s| + 1 && CutUpTo(copy[..], s, p) && Stored(list[..], copy[..], done, p)
    requires i == |done| + 2 < list.Length && list[0] == Server && list[i - 1] == Client(start)
    modifies list, copy
    ensures CutUpTo(copy[..], s, p + 1) && Stored(list[..], copy[..], done + [s[start..p]], p + 1)
    ensures list[0] == Server && list[i] == Client(p + 1)
  {
    hide CutUpTo, Stored;
    ghost var was, lst := copy[..], list[..];
    StoreCut(lst, was, s, done, start, p);
    copy[p] := '\0';
    assert copy[..] == was[p := '\0'];
    StoreStart(lst, copy[..], done + [s[start..p]], p + 1, i);
    list[i] := Client(p + 1);
    assert list[..] == lst[i := Client(p + 1)];
  }

  /** make_iface_list.  Every entry behind the server's is the start of one part, and the
      loop, which tests no end, stops at the last one. */
  method MakeIfaceList(s: string) returns (list: array<Iface>, copy: array<char>)
    requires '\0' !in s
    ensures list.Length == 1 + |Split(s, ',')| && list[0] == Server
    ensures forall j | 0 <= j < |Split(s, ',')| :: PartAt(list[..], copy[..], j, Split(s, ',')[j])
  {
    hide Split, CutUpTo, Stored, PartAt;
    var cn := CountInterfaces(s);
    list := new Iface[cn](_ => Server);
    copy := new char[|s| + 1](k => if 0 <= k < |s| then s[k] else '\0');
    ghost var done: seq<string>, start := [], 0;
    var i, p := 1, 0;
    list[i] := Client(p);
    i := i + 1;
    assert s[0..] == s && s[0..0] == [] && done + Split(s, ',') == Split(s, ',');
    NothingCut(copy[..], s, list[..]);
    while i < cn
      invariant 2 <= i <= cn && start <= p <= |s|
      invariant list[0] == Server && list[i - 1] == Client(start)
      invariant |done| == i - 2 && done + Split(s[start..], ',') == Split(s, ',')
      invariant ',' !in s[start..p]
      invariant CutUpTo(copy[..], s, p) && Stored(list[..], copy[..], done, p)
      decreases |s| - p
    {
      assert |Split(s, ',')| == |done| + |Split(s[start..], ',')|;
      MoreCommas(s, start, p);
      CutReads(copy[..], s, p);
      if copy[p] == ',' {
        CutAt(list, copy, i, p, s, done, start);
        CutHere(s, start, p);
        ghost var part := s[start..p];
        assert done + ([part] + Split(s[p + 1..], ',')) == (done + [part]) + Split(s[p + 1..], ',');
        done := done + [part];
        start := p + 1;
        i := i + 1;
      } else {
        CutOn(copy[..], s, p, list[..], done);
        assert s[start..p + 1] == s[start..p] + [s[p]];
      }
      p := p + 1;
    }
    assert |Split(s, ',')| == |done| + |Split(s[start..], ',')|;
    AllStored(list[..], copy[..], s, done, start, p);
  }

  lemma AllStored(list: seq<Iface>, buffer: seq<char>, s: string, done: seq<string>, start: nat, p: nat)
    requires start <= p <= |s| && |buffer| == |s| + 1 && CutUpTo(buffer, s, p)
    requires |Split(s[start..], ',')| == 1 && done + Split(s[start..], ',') == Split(s, ',')
    requires Stored(list, buffer, done, p) && |done| + 2 == |list| && list[|done| + 1] == Client(start)
    ensures forall j | 0 <= j < |Split(s, ',')| :: PartAt(list, buffer, j, Split(s, ',')[j])
  {
    hide Split;
    LastPart(buffer, s, start, p);
    assert Split(s, ',') == done + [s[start..]];
    assert PartAt(list, buffer, |done|, s[start..]);
  }

  lemma NothingCut(buffer: seq<char>, s: string, list: seq<Iface>)
    requires |list| > 0
    requires |buffer| == |s| + 1 && buffer[|s|] == '\0' && forall k | 0 <= k < |s| :: buffer[k] == s[k]
    ensures CutUpTo(buffer, s, 0) && Stored(list, buffer, [], 0)
  {
  }

  lemma CutReads(buffer: seq<char>, s: string, p: nat)
    requires |buffer| == |s| + 1 && p < |s| && CutUpTo(buffer, s, p)
    ensures buffer[p] == s[p]
  {
  }

  lemma CutOn(buffer: seq<char>, s: string, p: nat, list: seq<Iface>, done: seq<string>)
    requires |buffer| == |s| + 1 && p < |s| && CutUpTo(buffer, s, p) && s[p] != ','
    requires Stored(list, buffer, done, p)
    ensures CutUpTo(buffer, s, p + 1) && Stored(list, buffer, done, p + 1)
  {
  }

  /** As long as parts are missing there is a comma ahead. */
  lemma MoreCommas(s: string, start: nat, p: nat)
    requires start <= p <= |s| && ',' !in s[start..p] && |Split(s[start..], ',')| > 1
    ensures p < |s|
  {
    if p == |s| {
      assert s[start..] == s[start..p] + [];
      SplitFirst(s[start..p], [], ',');
    }
  }

  lemma CutHere(s: string, start: nat, p: nat)
    requires start <= p < |s| && ',' !in s[start..p] && s[p] == ','
    ensures Split(s[start..], ',') == [s[start..p]] + Split(s[p + 1..], ',')
  {
    assert s[start..] == s[start..p] + s[p..];
    SplitFirst(s[start..p], s[p..], ',');
    assert s[p..][1..] == s[p + 1..];
  }
}
