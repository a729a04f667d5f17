/** What adding an option does to lookups.  An overload option is read without a look at
    its length: the byte behind it says which further fields hold options. */
module OptionLookups {
  import opened Wrappers
  import opened OptionSpec
  import opened OptionAppend

  predicate EndsInEmptyOverload(es: seq<Entry>) {
    es != [] && es[|es| - 1].code == DHCP_OPTION_OVERLOAD && es[|es| - 1].data == []
  }

  /** Whether an option with `code`, added to `f`, leaves the same further fields in play.
      An empty overload option right before the end mark has that mark for its value, which
      names both fields; after the addition it has the code, and a field stays in play only
      if the code or an earlier overload option names it. */
  predicate KeepsFields(f: seq<byte>, code: byte)
    requires Terminated(f)
  {
    var es := Entries(f);
    if EndsInEmptyOverload(es) && es[|es| - 1].pos + 2 == EndOf(f) then
      var ov := NoteAll(NoOverload, f, es[..|es| - 1]);
      (ov.file || code % 2 == 1) && (ov.sname || code / 2 % 2 == 1)
    else true
  }

  /** Which fields are in play after the options field. */
  function Named(f: seq<byte>): (ov: Overload)
    ensures !ov.fileSeen && !ov.snameSeen
  {
    NoteAll(NoOverload, f, Entries(f))
  }

  /** Options before the last one cannot see bytes from the end mark on. */
  lemma {:induction false} EntriesSpaced(f: seq<byte>, i: nat)
    requires Parse(f, i).ending.EndMark?
    ensures var es, end := Parse(f, i).entries, Parse(f, i).ending.pos;
      forall k | 0 <= k < |es| ::
        && i <= es[k].pos && es[k].pos + 2 + |es[k].data| <= end
        && (k + 1 < |es| ==> es[k].pos + 2 + |es[k].data| <= es[k + 1].pos)
    decreases |f| - i
  {
    if f[i] == DHCP_PADDING {
      EntriesSpaced(f, i + 1);
    } else if f[i] != DHCP_END {
      EntriesSpaced(f, i + 2 + f[i + 1]);
    }
  }

  lemma {:induction false} NoteAllSame(ov: Overload, f: seq<byte>, g: seq<byte>, es: seq<Entry>)
    requires forall e | e in es && e.code == DHCP_OPTION_OVERLOAD :: OverloadByte(f, e.pos) == OverloadByte(g, e.pos)
    ensures NoteAll(ov, f, es) == NoteAll(ov, g, es)
    decreases |es|
  {
    if es != [] {
      assert es[0] in es;
      NoteAllSame(Note(ov, f, es[0]), f, g, es[1..]);
    }
  }

  lemma {:induction false} NoteAllAppend(ov: Overload, f: seq<byte>, es: seq<Entry>, e: Entry)
    ensures NoteAll(ov, f, es + [e]) == Note(NoteAll(ov, f, es), f, e)
    decreases |es|
  {
    if es == [] {
      assert ([] + [e])[1..] == [];
    } else {
      assert (es + [e])[1..] == es[1..] + [e];
      NoteAllAppend(Note(ov, f, es[0]), f, es[1..], e);
    }
  }

  /** An addition leaves every overload option's byte alone, except for an empty one right
      before the end mark. */
  lemma SameBytes(f: seq<byte>, code: byte, data: seq<byte>, e: Entry)
    requires |data| < 256 && Room(f, data)
    requires e in Entries(f) && !(e.data == [] && e.pos + 2 == EndOf(f))
    ensures OverloadByte(f, e.pos) == OverloadByte(Appended(f, code, data), e.pos)
  {
    var g, es := Appended(f, code, data), Entries(f);
    AppendedBytes(f, code, data);
    EntriesSpaced(f, 0);
    var k :| 0 <= k < |es| && es[k] == e;
    assert e.pos + 2 < EndOf(f);
    assert g[e.pos + 2] == g[..EndOf(f)][e.pos + 2] == f[..EndOf(f)][e.pos + 2] == f[e.pos + 2];
  }

  lemma BytesBefore(f: seq<byte>, k: nat)
    requires Terminated(f) && k + 1 < |Entries(f)|
    ensures Entries(f)[k].pos + 2 < EndOf(f)
  {
    EntriesSpaced(f, 0);
    assert Entries(f)[k + 1].pos + 2 <= EndOf(f);
  }

  /** No overload option but possibly the last one can change its byte. */
  lemma SameNotes(f: seq<byte>, code: byte, data: seq<byte>, n: nat)
    requires |data| < 256 && Room(f, data) && n <= |Entries(f)|
    requires n < |Entries(f)| || !(EndsInEmptyOverload(Entries(f)) && Entries(f)[n - 1].pos + 2 == EndOf(f))
    ensures NoteAll(NoOverload, f, Entries(f)[..n]) == NoteAll(NoOverload, Appended(f, code, data), Entries(f)[..n])
  {
    var es, g := Entries(f), Appended(f, code, data);
    forall e | e in es[..n] && e.code == DHCP_OPTION_OVERLOAD ensures OverloadByte(f, e.pos) == OverloadByte(g, e.pos) {
      var k :| 0 <= k < n && es[k] == e;
      if k + 1 < |es| { BytesBefore(f, k); }
      SameBytes(f, code, data, e);
    }
    hide Appended;
    NoteAllSame(NoOverload, f, g, es[..n]);
  }

  /** The value that the last, empty overload option gets. */
  lemma LastNote(f: seq<byte>, code: byte, data: seq<byte>)
    requires |data| < 256 && Room(f, data) && code != DHCP_OPTION_OVERLOAD
    requires EndsInEmptyOverload(Entries(f)) && Entries(f)[|Entries(f)| - 1].pos + 2 == EndOf(f)
    ensures var es, g := Entries(f), Appended(f, code, data);
      var ov := NoteAll(NoOverload, f, es[..|es| - 1]);
      && NoteAll(NoOverload, f, es) == ov.(file := true, sname := true)
      && NoteAll(NoOverload, g, es)
         == ov.(file := ov.file || code % 2 == 1, sname := ov.sname || code / 2 % 2 == 1)
  {
    var es, g := Entries(f), Appended(f, code, data);
    var init, last := es[..|es| - 1], es[|es| - 1];
    SameNotes(f, code, data, |es| - 1);
    AppendedBytes(f, code, data);
    assert es == init + [last];
    hide Appended, Entries, EndOf;
    NoteAllAppend(NoOverload, f, init, last);
    NoteAllAppend(NoOverload, g, init, last);
  }

  /** The same fields stay in play exactly as `KeepsFields` says; otherwise both were in
      play and one of them no longer is. */
  lemma NamedAfter(f: seq<byte>, code: byte, data: seq<byte>)
    requires |data| < 256 && Room(f, data)
    requires code != DHCP_PADDING && code != DHCP_END && code != DHCP_OPTION_OVERLOAD
    ensures Terminated(Appended(f, code, data))
    ensures var old', new' := Named(f), Named(Appended(f, code, data));
      if KeepsFields(f, code) then new' == old'
      else old'.file && old'.sname && !(new'.file && new'.sname)
  {
    var g, es, e := Appended(f, code, data), Entries(f), Entry(EndOf(f), code, data);
    AppendParses(f, code, data);
    NoteAllAppend(NoOverload, g, es, e);
    if EndsInEmptyOverload(es) && es[|es| - 1].pos + 2 == EndOf(f) {
      LastNote(f, code, data);
    } else {
      SameNotes(f, code, data, |es|);
      assert es[..|es|] == es;
    }
    hide Appended, Entries, EndOf, NoteAll;
  }

  // ----- the list of all options -----

  lemma OptionsOf(p: Fields)
    requires Terminated(p.options)
    ensures Options(p) == Placed(OptionsField, Entries(p.options)) + Further(p, Named(p.options))
  {
  }

  lemma {:induction false} FurtherSame(p: Fields, q: Fields, ov: Overload)
    requires p.file == q.file && p.sname == q.sname
    ensures Further(p, ov) == Further(q, ov)
    decreases Unseen(ov)
  {
    if ov.file && !ov.fileSeen {
      FurtherSame(p, q, NoteAll(ov.(fileSeen := true), p.file, Parse(p.file, 0).entries));
    } else if ov.sname && !ov.snameSeen {
      FurtherSame(p, q, NoteAll(ov.(snameSeen := true), p.sname, Parse(p.sname, 0).entries));
    }
  }

  /** The message's options after an addition: the new one behind the others of the
      options field, and what the fields in play then hold. */
  lemma AppendOptions(p: Fields, code: byte, data: seq<byte>)
    requires |data| < 256 && Room(p.options, data)
    requires code != DHCP_PADDING && code != DHCP_END && code != DHCP_OPTION_OVERLOAD
    ensures var f, g := p.options, Appended(p.options, code, data);
      && Options(p) == Placed(OptionsField, Entries(f)) + Further(p, Named(f))
      && Options(p.(options := g))
         == Placed(OptionsField, Entries(f)) + [Found(OptionsField, Entry(EndOf(f), code, data))] + Further(p, Named(g))
  {
    var f := p.options;
    var g, e := Appended(f, code, data), Entry(EndOf(f), code, data);
    AppendParses(f, code, data);
    var q := p.(options := g);
    OptionsOf(p);
    OptionsOf(q);
    FurtherSame(p, q, Named(g));
    assert Placed(OptionsField, Entries(f) + [e]) == Placed(OptionsField, Entries(f)) + [Found(OptionsField, e)];
    hide Appended, Further, Named, Options, Entries;
  }

  /** Lookups after an addition that keeps the fields in play: other codes are found as
      before, the added code where it was in the options field already, or else exactly
      as added. */
  lemma AppendLookup(p: Fields, code: byte, data: seq<byte>, wanted: int)
    requires |data| < 256 && Room(p.options, data)
    requires code != DHCP_PADDING && code != DHCP_END && code != DHCP_OPTION_OVERLOAD
    requires KeepsFields(p.options, code)
    ensures var q := p.(options := Appended(p.options, code, data));
      First(Options(q), wanted) ==
        if wanted == code && First(Placed(OptionsField, Entries(p.options)), code) == None
        then Some(Found(OptionsField, Entry(EndOf(p.options), code, data)))
        else First(Options(p), wanted)
  {
    AppendOptions(p, code, data);
    NamedAfter(p.options, code, data);
    var head := Placed(OptionsField, Entries(p.options));
    var added := [Found(OptionsField, Entry(EndOf(p.options), code, data))];
    var rest := Further(p, Named(p.options));
    FirstOfConcat(head + added, rest, wanted);
    FirstOfConcat(head, added, wanted);
    FirstOfConcat(head, rest, wanted);
    assert added[1..] == [];
    hide Appended, Options, Further, Placed, Entries, Named;
  }

  // ----- when lookups stay the same -----

  /** Lookups of codes other than `code` find the same in both messages. */
  ghost predicate SameLookups(p: Fields, q: Fields, code: byte) {
    forall wanted: int | wanted != code :: First(Options(q), wanted) == First(Options(p), wanted)
  }

  /** Whatever `file` and `sname` hold, the addition leaves lookups of other codes alone. */
  ghost predicate KeepsLookups(f: seq<byte>, code: byte, data: seq<byte>)
    requires |data| < 256 && Room(f, data)
  {
    forall file: seq<byte>, sname: seq<byte> | |file| == FILE_SIZE && |sname| == SNAME_SIZE ::
      SameLookups(Fields(f, file, sname), Fields(Appended(f, code, data), file, sname), code)
  }

  /** A code that is not among fewer than `n` others. */
  lemma {:induction false} FreeCode(used: seq<int>, n: nat) returns (w: int)
    requires |used| < n
    ensures 1 <= w <= n && w !in used
  {
    if n !in used {
      w := n;
    } else {
      var i :| 0 <= i < |used| && used[i] == n;
      w := FreeCode(RemovedAt(used, i), n - 1);
      forall j | 0 <= j < |used| ensures used[j] != w {
        if j < i {
          assert RemovedAt(used, i)[j] == used[j];
        } else if j > i {
          assert RemovedAt(used, i)[j - 1] == used[j];
        }
      }
    }
  }

  lemma {:induction false} EntriesFew(f: seq<byte>, i: nat)
    requires i <= |f|
    ensures 2 * |Parse(f, i).entries| <= |f| - i
    decreases |f| - i
  {
    if i == |f| {
    } else if f[i] == DHCP_PADDING {
      EntriesFew(f, i + 1);
    } else if f[i] != DHCP_END && FitsAt(f, i) {
      EntriesFew(f, i + 2 + f[i + 1]);
    }
  }

  /** The options field has no room for all the codes. */
  lemma UnusedCode(f: seq<byte>, code: byte) returns (w: byte)
    requires |f| == OPTIONS_SIZE
    ensures w != code && w != DHCP_PADDING && w != DHCP_END && forall e | e in Entries(f) :: e.code != w
  {
    EntriesFew(f, 0);
    var es := Entries(f);
    var used := [code as int] + seq(|es|, k requires 0 <= k < |es| => es[k].code as int);
    w := FreeCode(used, 254);
    assert used[0] == code;
    forall e | e in es ensures e.code != w {
      var k :| 0 <= k < |es| && es[k] == e;
      assert used[k + 1] == e.code;
    }
  }

  /** The option at the start of a field is found there. */
  lemma FoundAtStart(p: Fields, field: Field, ov: Overload)
    requires var b := p.Bytes(field); FitsAt(b, 0) && b[0] != DHCP_PADDING && b[0] != DHCP_END
    ensures First(From(p, field, 0, ov), p.Bytes(field)[0]) == Some(Found(field, EntryAt(p.Bytes(field), 0)))
  {
    FromStep(p, field, 0, ov);
    hide From;
  }

  lemma EmptyField(p: Fields, field: Field, ov: Overload)
    requires p.Bytes(field) != [] && p.Bytes(field)[0] == DHCP_END
    ensures From(p, field, 0, ov) == Further(p, ov)
  {
    FromStep(p, field, 0, ov);
    hide From, Further;
  }

  lemma NothingFurther(p: Fields, ov: Overload, code: int)
    requires (ov.file ==> ov.fileSeen) && (ov.sname ==> ov.snameSeen)
    ensures First(Further(p, ov), code) == None
  {
    assert Further(p, ov) == [];
  }

  /** An option in `file` is found behind an ended `sname` iff `file` is in play. */
  lemma FileInPlayIff(p: Fields, ov: Overload)
    requires FitsAt(p.file, 0) && p.file[0] != DHCP_PADDING && p.file[0] != DHCP_END
    requires p.sname != [] && p.sname[0] == DHCP_END && !ov.fileSeen && !ov.snameSeen
    ensures First(Further(p, ov), p.file[0]) == if ov.file then Some(Found(FileField, EntryAt(p.file, 0))) else None
  {
    hide From;
    if ov.file {
      FoundAtStart(p, FileField, ov.(fileSeen := true));
    } else if ov.sname {
      EmptyField(p, SnameField, ov.(snameSeen := true));
      NothingFurther(p, ov.(snameSeen := true), p.file[0]);
    } else {
      NothingFurther(p, ov, p.file[0]);
    }
  }

  /** An option in `sname` is found behind an ended `file` that is in play iff `sname` is, too. */
  lemma SnameInPlayIff(p: Fields, ov: Overload)
    requires FitsAt(p.sname, 0) && p.sname[0] != DHCP_PADDING && p.sname[0] != DHCP_END
    requires p.file != [] && p.file[0] == DHCP_END && ov.file && !ov.fileSeen && !ov.snameSeen
    ensures First(Further(p, ov), p.sname[0]) == if ov.sname then Some(Found(SnameField, EntryAt(p.sname, 0))) else None
  {
    hide From;
    var ov' := ov.(fileSeen := true);
    EmptyField(p, FileField, ov');
    if ov.sname {
      FoundAtStart(p, SnameField, ov'.(snameSeen := true));
    } else {
      NothingFurther(p, ov', p.sname[0]);
    }
  }

  /** The first option of a field with its code is found. */
  lemma {:induction false} FirstPlaced(field: Field, es: seq<Entry>, k: nat)
    requires k < |es| && forall j | 0 <= j < k :: es[j].code != es[k].code
    ensures First(Placed(field, es), es[k].code) == Some(Found(field, es[k]))
  {
    assert Placed(field, es)[1..] == Placed(field, es[1..]);
    if k > 0 {
      FirstPlaced(field, es[1..], k - 1);
    }
  }

  lemma FirstInOptions(p: Fields, k: nat)
    requires var o := Entries(p.options); k < |o| && forall j | 0 <= j < k :: o[j].code != o[k].code
    ensures First(Options(p), Entries(p.options)[k].code) == Some(Found(OptionsField, Entries(p.options)[k]))
  {
    var o := Entries(p.options);
    FirstPlaced(OptionsField, o, k);
    var rest := Options(p)[|o|..];
    assert Options(p) == Placed(OptionsField, o) + rest;
    FirstOfConcat(Placed(OptionsField, o), rest, o[k].code);
    hide Options, First, Placed, Entries;
  }

  /** A code that the options field does not have is looked up in the further fields. */
  lemma LookupFurther(p: Fields, code: byte, data: seq<byte>, w: byte)
    requires |data| < 256 && Room(p.options, data)
    requires code != DHCP_PADDING && code != DHCP_END && code != DHCP_OPTION_OVERLOAD
    requires w != code && forall e | e in Entries(p.options) :: e.code != w
    ensures var g := Appended(p.options, code, data);
      && First(Options(p), w) == First(Further(p, Named(p.options)), w)
      && First(Options(p.(options := g)), w) == First(Further(p, Named(g)), w)
  {
    var f, g := p.options, Appended(p.options, code, data);
    var head, added := Placed(OptionsField, Entries(f)), [Found(OptionsField, Entry(EndOf(f), code, data))];
    AppendOptions(p, code, data);
    forall x | x in head ensures x.entry.code != w {
      var k :| 0 <= k < |head| && head[k] == x;
      assert Entries(f)[k] in Entries(f);
    }
    hide Appended, Options, Further, Placed, Entries, Named;
    FirstOfConcat(head, Further(p, Named(f)), w);
    FirstOfConcat(head + added, Further(p, Named(g)), w);
    FirstOfConcat(head, added, w);
    assert added[1..] == [];
  }

  function Zeros(n: nat): (z: seq<byte>)
    ensures |z| == n && forall k | 0 <= k < n :: z[k] == 0
  {
    seq(n, _ => 0)
  }

  /** A message whose options field does not have `w`, but whose further fields do. */
  lemma FileWith(f: seq<byte>, g: seq<byte>, w: byte) returns (p: Fields)
    requires w != DHCP_PADDING && w != DHCP_END && Named(f).file && !Named(g).file
    ensures p.options == f && |p.file| == FILE_SIZE && |p.sname| == SNAME_SIZE
    ensures First(Further(p, Named(f)), w) != First(Further(p, Named(g)), w)
  {
    hide Named;
    var name: seq<byte> := [w, 0, DHCP_END];
    p := Fields(f, name + Zeros(FILE_SIZE - 3), [DHCP_END] + Zeros(SNAME_SIZE - 1));
    FileInPlayIff(p, Named(f));
    FileInPlayIff(p, Named(g));
  }

  lemma SnameWith(f: seq<byte>, g: seq<byte>, w: byte) returns (p: Fields)
    requires w != DHCP_PADDING && w != DHCP_END && Named(f).file && Named(g).file
    requires Named(f).sname && !Named(g).sname
    ensures p.options == f && |p.file| == FILE_SIZE && |p.sname| == SNAME_SIZE
    ensures First(Further(p, Named(f)), w) != First(Further(p, Named(g)), w)
  {
    hide Named;
    var name: seq<byte> := [w, 0, DHCP_END];
    p := Fields(f, [DHCP_END] + Zeros(FILE_SIZE - 1), name + Zeros(SNAME_SIZE - 3));
    SnameInPlayIff(p, Named(f));
    SnameInPlayIff(p, Named(g));
  }

  /** An addition that takes a field out of play takes an option with it, if the field
      has one that no other field has. */
  lemma LookupLost(f: seq<byte>, code: byte, data: seq<byte>)
    requires |f| == OPTIONS_SIZE && |data| < 256 && Room(f, data)
    requires code != DHCP_PADDING && code != DHCP_END && code != DHCP_OPTION_OVERLOAD
    requires !KeepsFields(f, code)
    ensures !KeepsLookups(f, code, data)
  {
    var w := UnusedCode(f, code);
    var g := Appended(f, code, data);
    NamedAfter(f, code, data);
    hide KeepsFields, Named, Appended, Entries, EndOf, Further, Options, First;
    var p: Fields;
    if !Named(g).file {
      p := FileWith(f, g, w);
    } else {
      p := SnameWith(f, g, w);
    }
    LookupFurther(p, code, data, w);
    assert p == Fields(f, p.file, p.sname);
    assert !SameLookups(p, Fields(g, p.file, p.sname), code);
  }

  /** An addition leaves the lookups of other codes alone, whatever the further fields
      hold, if and only if it keeps the fields in play. */
  lemma AppendKeepsLookupsIff(f: seq<byte>, code: byte, data: seq<byte>)
    requires |f| == OPTIONS_SIZE && |data| < 256 && Room(f, data)
    requires code != DHCP_PADDING && code != DHCP_END && code != DHCP_OPTION_OVERLOAD
    ensures KeepsLookups(f, code, data) <==> KeepsFields(f, code)
  {
    if KeepsFields(f, code) {
      forall file: seq<byte>, sname: seq<byte> | |file| == FILE_SIZE && |sname| == SNAME_SIZE
        ensures SameLookups(Fields(f, file, sname), Fields(Appended(f, code, data), file, sname), code)
      {
        KeptLookups(Fields(f, file, sname), code, data);
      }
    } else {
      LookupLost(f, code, data);
    }
  }

  lemma KeptLookups(p: Fields, code: byte, data: seq<byte>)
    requires |data| < 256 && Room(p.options, data) && KeepsFields(p.options, code)
    requires code != DHCP_PADDING && code != DHCP_END && code != DHCP_OPTION_OVERLOAD
    ensures SameLookups(p, p.(options := Appended(p.options, code, data)), code)
  {
    forall wanted: int | wanted != code
      ensures First(Options(p.(options := Appended(p.options, code, data))), wanted) == First(Options(p), wanted)
    {
      AppendLookup(p, code, data, wanted);
    }
  }

  /** A message in which it goes wrong: behind an empty overload option, the option 60,
      added without data, hides the option 12 in `file`. */
  lemma EmptyOverloadDisturbsLookups() returns (p: Fields)
    ensures |p.options| == OPTIONS_SIZE && |p.file| == FILE_SIZE && |p.sname| == SNAME_SIZE
    ensures p.options[..3] == [DHCP_OPTION_OVERLOAD, 0, DHCP_END] && Fits(p.options, [])
    ensures First(Options(p), 12) == Some(Found(FileField, Entry(0, 12, [65])))
    ensures First(Options(p.(options := Appended(p.options, 60, []))), 12) == None
  {
    var start: seq<byte>, name: seq<byte> := [DHCP_OPTION_OVERLOAD, 0, DHCP_END], [12, 1, 65, DHCP_END];
    var f := start + Zeros(OPTIONS_SIZE - 3);
    p := Fields(f, name + Zeros(FILE_SIZE - 4), [DHCP_END] + Zeros(SNAME_SIZE - 1));
    EmptyOverloadParsed(f);
    assert f[..3] == start;
    assert EntryAt(p.file, 0) == Entry(0, 12, [65]);
    hide Parse, Zeros, Named;
    assert Room(f, []) && Fits(f, []);
    NamedAfter(f, 60, []);
    NamedFileLost(f);
    FileInPlayIff(p, Named(f));
    FileInPlayIff(p, Named(Appended(f, 60, [])));
    LookupFurther(p, 60, [], 12);
  }

  lemma EmptyOverloadParsed(f: seq<byte>)
    requires |f| > 2 && f[0] == DHCP_OPTION_OVERLOAD && f[1] == 0 && f[2] == DHCP_END
    ensures Parse(f, 0) == Walk([Entry(0, DHCP_OPTION_OVERLOAD, [])], EndMark(2))
  {
    assert EntryAt(f, 0) == Entry(0, DHCP_OPTION_OVERLOAD, []);
    assert Parse(f, 2) == Walk([], EndMark(2));
  }

  lemma NamedFileLost(f: seq<byte>)
    requires Parse(f, 0) == Walk([Entry(0, DHCP_OPTION_OVERLOAD, [])], EndMark(2)) && Room(f, [])
    ensures Named(f).file && !Named(Appended(f, 60, [])).file
  {
    AppendParses(f, 60, []);
    LastNote(f, 60, []);
    NoteAllAppend(NoOverload, Appended(f, 60, []), Entries(f), Entry(2, 60, []));
    assert Entries(f)[..0] == [];
  }
}
