/** What adding an option at the end mark does to the option list and to lookups. */
module OptionAppend {
  import opened Wrappers
  import opened OptionSpec

  function OptionBytes(code: byte, data: seq<byte>): seq<byte>
    requires |data| < 256
  {
    [code, |data|] + data
  }

  /** There is room for the option and an end mark behind it. */
  predicate Room(f: seq<byte>, data: seq<byte>) {
    Terminated(f) && EndOf(f) + 2 + |data| < |f|
  }

  /** The test of udhcp_add_binary_option, which leaves one more byte free. */
  predicate Fits(f: seq<byte>, data: seq<byte>) {
    Terminated(f) && EndOf(f) + (2 + |data|) + 1 < |f|
  }

  function Appended(f: seq<byte>, code: byte, data: seq<byte>): (g: seq<byte>)
    requires |data| < 256 && Room(f, data)
    ensures |g| == |f|
  {
    var end := EndOf(f);
    f[..end] + OptionBytes(code, data) + [DHCP_END] + f[end + 2 + |data| + 1..]
  }

  /** Fields of one size whose bytes before `end` are the same. */
  predicate Agree(f: seq<byte>, g: seq<byte>, end: nat) {
    |g| == |f| && end <= |f| && g[..end] == f[..end]
  }

  /** What is at place `i` before the end mark is the same in both. */
  lemma SameStart(f: seq<byte>, g: seq<byte>, i: nat, end: nat)
    requires Agree(f, g, end) && i < end && Parse(f, i).ending == EndMark(end)
    ensures i < |g| == |f| && g[i] == f[i] != DHCP_END
    ensures f[i] != DHCP_PADDING ==>
      FitsAt(f, i) && FitsAt(g, i) && EntryAt(g, i) == EntryAt(f, i) && g[i + 1] == f[i + 1]
  {
    forall k | 0 <= k < end ensures g[k] == f[k] {
      assert g[..end][k] == f[..end][k];
    }
  }

  /** Bytes from the end mark on do not matter to what comes before it. */
  lemma {:induction false} ParseBeforeEnd(f: seq<byte>, g: seq<byte>, i: nat, end: nat)
    requires Parse(f, i).ending == EndMark(end) && Agree(f, g, end)
    ensures Parse(g, i).entries == Parse(f, i).entries + Parse(g, end).entries
    ensures Parse(g, i).ending == Parse(g, end).ending
    decreases |f| - i
  {
    hide EntryAt, FitsAt, Agree;
    if i < end {
      SameStart(f, g, i, end);
      ParseStep(f, i);
      ParseStep(g, i);
      hide Parse;
      if f[i] == DHCP_PADDING {
        ParseBeforeEnd(f, g, i + 1, end);
      } else {
        ParseBeforeEnd(f, g, i + 2 + f[i + 1], end);
      }
    }
  }

  lemma AppendedBytes(f: seq<byte>, code: byte, data: seq<byte>)
    requires |data| < 256 && Room(f, data)
    ensures var g, end := Appended(f, code, data), EndOf(f);
      && g[..end] == f[..end]
      && g[end] == code && g[end + 1] == |data|
      && g[end + 2..end + 2 + |data|] == data
      && g[end + 2 + |data|] == DHCP_END
  {
  }

  /** The list grows by the new option, and the field stays terminated. */
  lemma AppendParses(f: seq<byte>, code: byte, data: seq<byte>)
    requires |data| < 256 && Room(f, data)
    requires code != DHCP_PADDING && code != DHCP_END
    ensures var g := Appended(f, code, data);
      && Terminated(g)
      && Entries(g) == Entries(f) + [Entry(EndOf(f), code, data)]
      && EndOf(g) == EndOf(f) + 2 + |data|
  {
    var g, end := Appended(f, code, data), EndOf(f);
    AppendedBytes(f, code, data);
    hide Appended;
    ParseBeforeEnd(f, g, 0, end);
    assert Parse(g, end + 2 + |data|) == Walk([], EndMark(end + 2 + |data|));
    assert FitsAt(g, end) && EntryAt(g, end) == Entry(end, code, data);
    assert Parse(g, end).entries == [Entry(end, code, data)];
  }

  /** The codes that the format reserves for padding and the end mark, and only those,
      do not survive being added. */
  lemma AppendRoundTripIff(f: seq<byte>, code: byte, data: seq<byte>)
    requires |data| < 256 && Room(f, data)
    ensures Entries(Appended(f, code, data)) == Entries(f) + [Entry(EndOf(f), code, data)]
       <==> code != DHCP_PADDING && code != DHCP_END
  {
    var g, last := Appended(f, code, data), Entry(EndOf(f), code, data);
    if code != DHCP_PADDING && code != DHCP_END {
      AppendParses(f, code, data);
    } else {
      EntriesInside(g, 0);
      assert last in Entries(f) + [last];
    }
  }

  /** An option with code 0, added to an empty field, is not there afterwards. */
  lemma PaddingNotReadBack(f: seq<byte>)
    requires |f| == OPTIONS_SIZE && f[0] == DHCP_END
    ensures Fits(f, []) && Entries(Appended(f, DHCP_PADDING, [])) == []
  {
    assert Parse(f, 0) == Walk([], EndMark(0));
    AppendedBytes(f, DHCP_PADDING, []);
    var g := Appended(f, DHCP_PADDING, []);
    hide Appended;
    assert g[0] == 0 && g[1] == 0 && g[2] == DHCP_END;
    assert Parse(g, 2) == Walk([], EndMark(2));
    assert Parse(g, 1) == Parse(g, 2);
  }
}
