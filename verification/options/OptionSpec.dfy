/** The options of a DHCP message as a list, read off the bytes of the `options` field
    and, where an overload option says so, of `file` and `sname` (RFC 2132, 9.3). */
module OptionSpec {
  import opened Wrappers

  type byte = x: int | 0 <= x < 256

  const DHCP_PADDING: byte := 0
  const DHCP_END: byte := 255
  const DHCP_OPTION_OVERLOAD: byte := 0x34
  const OPTIONS_SIZE := 308
  const FILE_SIZE := 128
  const SNAME_SIZE := 64

  // ----- one field -----

  /** An option found at place `pos` of a field. */
  datatype Entry = Entry(pos: nat, code: byte, data: seq<byte>)

  datatype Ending = EndMark(pos: nat) | Malformed

  datatype Walk = Walk(entries: seq<Entry>, ending: Ending)

  predicate FitsAt(f: seq<byte>, i: nat) {
    i + 1 < |f| && i + 2 + f[i + 1] <= |f|
  }

  function EntryAt(f: seq<byte>, i: nat): Entry
    requires FitsAt(f, i)
  {
    Entry(i, f[i], f[i + 2..i + 2 + f[i + 1]])
  }

  /** The options of `f` from place `i` on, up to the end mark or the first fault. */
  function Parse(f: seq<byte>, i: nat): (w: Walk)
    ensures w.ending.EndMark? ==> i <= w.ending.pos < |f| && f[w.ending.pos] == DHCP_END
    decreases |f| - i
  {
    if i >= |f| then Walk([], Malformed)
    else if f[i] == DHCP_PADDING then Parse(f, i + 1)
    else if f[i] == DHCP_END then Walk([], EndMark(i))
    else if !FitsAt(f, i) then Walk([], Malformed)
    else
      var rest := Parse(f, i + 2 + f[i + 1]);
      Walk([EntryAt(f, i)] + rest.entries, rest.ending)
  }

  /** The field has an end mark, so that the walkers without bounds checks stop in it. */
  predicate Terminated(f: seq<byte>) {
    Parse(f, 0).ending.EndMark?
  }

  function EndOf(f: seq<byte>): (e: nat)
    requires Terminated(f)
    ensures e < |f| && f[e] == DHCP_END
  {
    Parse(f, 0).ending.pos
  }

  function Entries(f: seq<byte>): seq<Entry> {
    Parse(f, 0).entries
  }

  /** Every option found lies inside its field, and is what the bytes there say. */
  lemma {:induction false} EntriesInside(f: seq<byte>, i: nat)
    ensures forall e | e in Parse(f, i).entries ::
      && FitsAt(f, e.pos) && e == EntryAt(f, e.pos)
      && e.code != DHCP_PADDING && e.code != DHCP_END
      && (Parse(f, i).ending.EndMark? ==> e.pos + 2 + |e.data| <= Parse(f, i).ending.pos)
    decreases |f| - i
  {
    if i >= |f| {
    } else if f[i] == DHCP_PADDING {
      EntriesInside(f, i + 1);
    } else if f[i] != DHCP_END && FitsAt(f, i) {
      EntriesInside(f, i + 2 + f[i + 1]);
    }
  }

  // ----- the whole message -----

  datatype Field = OptionsField | FileField | SnameField

  datatype Fields = Fields(options: seq<byte>, file: seq<byte>, sname: seq<byte>) {
    function Bytes(field: Field): seq<byte> {
      match field
      case OptionsField => options
      case FileField => file
      case SnameField => sname
    }
  }

  /** Which further fields an overload option has named, and which have been looked at. */
  datatype Overload = Overload(file: bool, sname: bool, fileSeen: bool, snameSeen: bool)

  const NoOverload := Overload(false, false, false, false)

  /** The byte that an overload option is taken to hold: the one after its length, even
      when the length is zero. */
  function OverloadByte(f: seq<byte>, pos: nat): byte {
    if pos + 2 < |f| then f[pos + 2] else 0
  }

  function Note(ov: Overload, f: seq<byte>, e: Entry): Overload {
    if e.code == DHCP_OPTION_OVERLOAD then
      var b := OverloadByte(f, e.pos);
      ov.(file := ov.file || b % 2 == 1, sname := ov.sname || (b / 2) % 2 == 1)
    else ov
  }

  function NoteAll(ov: Overload, f: seq<byte>, es: seq<Entry>): (r: Overload)
    ensures r.fileSeen == ov.fileSeen && r.snameSeen == ov.snameSeen
    decreases |es|
  {
    if es == [] then ov else NoteAll(Note(ov, f, es[0]), f, es[1..])
  }

  datatype Found = Found(field: Field, entry: Entry)

  function Placed(field: Field, es: seq<Entry>): (r: seq<Found>)
    ensures |r| == |es| && forall k | 0 <= k < |es| :: r[k] == Found(field, es[k])
  {
    seq(|es|, k requires 0 <= k < |es| => Found(field, es[k]))
  }

  function Unseen(ov: Overload): nat {
    (if ov.fileSeen then 0 else 1) + (if ov.snameSeen then 0 else 1)
  }

  /** The options from place `i` of a field on, and of the fields still to be visited. */
  function From(p: Fields, field: Field, i: nat, ov: Overload): seq<Found>
    decreases Unseen(ov), 1
  {
    var w := Parse(p.Bytes(field), i);
    Placed(field, w.entries)
    + if w.ending == Malformed then [] else Further(p, NoteAll(ov, p.Bytes(field), w.entries))
  }

  /** The fields visited after an end mark: `file`, then `sname`, each at most once. */
  function Further(p: Fields, ov: Overload): seq<Found>
    decreases Unseen(ov), 0
  {
    if ov.file && !ov.fileSeen then From(p, FileField, 0, ov.(fileSeen := true))
    else if ov.sname && !ov.snameSeen then From(p, SnameField, 0, ov.(snameSeen := true))
    else []
  }

  /** The options of a message, in the order in which they count. */
  function Options(p: Fields): seq<Found> {
    From(p, OptionsField, 0, NoOverload)
  }

  function First(list: seq<Found>, code: int): (r: Option<Found>)
    ensures r == None ==> forall x | x in list :: x.entry.code != code
    ensures r.Some? ==> r.value in list && r.value.entry.code == code
  {
    if list == [] then None
    else if list[0].entry.code == code then Some(list[0])
    else First(list[1..], code)
  }

  lemma {:induction false} FirstOfConcat(a: seq<Found>, b: seq<Found>, code: int)
    ensures First(a + b, code) == if First(a, code).Some? then First(a, code) else First(b, code)
  {
    if a == [] {
      assert a + b == b;
    } else {
      assert (a + b)[1..] == a[1..] + b;
      FirstOfConcat(a[1..], b, code);
    }
  }

  /** The code, the length and the data of `x` lie inside one field. */
  predicate Inside(p: Fields, x: Found) {
    var f := p.Bytes(x.field);
    FitsAt(f, x.entry.pos) && x.entry == EntryAt(f, x.entry.pos)
  }

  lemma PlacedInside(p: Fields, field: Field, i: nat)
    ensures forall x | x in Placed(field, Parse(p.Bytes(field), i).entries) :: Inside(p, x)
  {
    var es := Parse(p.Bytes(field), i).entries;
    EntriesInside(p.Bytes(field), i);
    forall x | x in Placed(field, es) ensures Inside(p, x) {
      var k :| 0 <= k < |es| && x == Placed(field, es)[k];
      assert es[k] in es;
    }
  }

  lemma {:induction false} FromInside(p: Fields, field: Field, i: nat, ov: Overload)
    ensures forall x | x in From(p, field, i, ov) :: Inside(p, x)
    decreases Unseen(ov), 1
  {
    PlacedInside(p, field, i);
    FurtherInside(p, NoteAll(ov, p.Bytes(field), Parse(p.Bytes(field), i).entries));
    hide Inside, Parse, Further;
  }

  lemma {:induction false} FurtherInside(p: Fields, ov: Overload)
    ensures forall x | x in Further(p, ov) :: Inside(p, x)
    decreases Unseen(ov), 0
  {
    if ov.file && !ov.fileSeen {
      FromInside(p, FileField, 0, ov.(fileSeen := true));
    } else if ov.sname && !ov.snameSeen {
      FromInside(p, SnameField, 0, ov.(snameSeen := true));
    }
  }

  // ----- the walk, step by step -----

  lemma ParseStep(f: seq<byte>, i: nat)
    requires i < |f| && f[i] != DHCP_END
    ensures f[i] == DHCP_PADDING ==> Parse(f, i) == Parse(f, i + 1)
    ensures f[i] != DHCP_PADDING && FitsAt(f, i) ==>
      var rest := Parse(f, i + 2 + f[i + 1]);
      Parse(f, i) == Walk([EntryAt(f, i)] + rest.entries, rest.ending)
  {
  }

  lemma PlacedStep(field: Field, e: Entry, es: seq<Entry>)
    ensures Placed(field, [e] + es) == [Found(field, e)] + Placed(field, es)
  {
  }

  lemma FromOption(p: Fields, field: Field, i: nat, ov: Overload)
    requires var f := p.Bytes(field);
      i < |f| && f[i] != DHCP_PADDING && f[i] != DHCP_END && FitsAt(f, i)
    ensures var f := p.Bytes(field);
      From(p, field, i, ov) ==
        [Found(field, EntryAt(f, i))] + From(p, field, i + 2 + f[i + 1], Note(ov, f, EntryAt(f, i)))
  {
    var f := p.Bytes(field);
    ParseStep(f, i);
    var e, rest := EntryAt(f, i), Parse(f, i + 2 + f[i + 1]);
    hide Parse, FitsAt, EntryAt, Note, Further;
    PlacedStep(field, e, rest.entries);
    hide Placed;
    var ov' := NoteAll(Note(ov, f, e), f, rest.entries);
    assert NoteAll(ov, f, [e] + rest.entries) == ov' by { assert ([e] + rest.entries)[1..] == rest.entries; }
    hide NoteAll;
  }

  lemma FromNone(p: Fields, field: Field, i: nat, ov: Overload)
    ensures var f := p.Bytes(field);
      && (i >= |f| ==> From(p, field, i, ov) == [])
      && (i < |f| && f[i] == DHCP_PADDING ==> From(p, field, i, ov) == From(p, field, i + 1, ov))
      && (i < |f| && f[i] == DHCP_END ==> From(p, field, i, ov) == Further(p, ov))
      && (i < |f| && f[i] != DHCP_PADDING && f[i] != DHCP_END && !FitsAt(f, i) ==> From(p, field, i, ov) == [])
  {
    hide Further, FitsAt, Note;
    assert Placed(field, []) == [];
  }

  lemma FromStep(p: Fields, field: Field, i: nat, ov: Overload)
    ensures var f := p.Bytes(field);
      From(p, field, i, ov) ==
        if i >= |f| then []
        else if f[i] == DHCP_PADDING then From(p, field, i + 1, ov)
        else if f[i] == DHCP_END then Further(p, ov)
        else if !FitsAt(f, i) then []
        else [Found(field, EntryAt(f, i))] + From(p, field, i + 2 + f[i + 1], Note(ov, f, EntryAt(f, i)))
  {
    var f := p.Bytes(field);
    if i < |f| && f[i] != DHCP_PADDING && f[i] != DHCP_END && FitsAt(f, i) {
      FromOption(p, field, i, ov);
    } else {
      FromNone(p, field, i, ov);
    }
    hide *;
  }
}
