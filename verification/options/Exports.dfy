/** Which parts of a message the script sees: the fixed fields, told from the message
    itself, and fields that hold options are not taken for names as well. */
module OptionExports {
  import opened Wrappers
  import opened OptionSpec
  import opened OptionLookups
  import opened OptionPacket
  import opened OptionOverload
  import opened OptionEnvironment

  /** The byte behind the length of the first overload option, if one is found. */
  ghost function ClaimByte(p: Fields): Option<byte> {
    match First(Options(p), 52)
    case None => None
    case Some(x) => if x.entry.pos + 2 < |p.Bytes(x.field)| then Some(p.Bytes(x.field)[x.entry.pos + 2]) else None
  }

  ghost predicate FileClaimed(p: Fields) {
    ClaimByte(p).Some? && ClaimByte(p).value % 2 == 1
  }

  ghost predicate SnameClaimed(p: Fields) {
    ClaimByte(p).Some? && ClaimByte(p).value / 2 % 2 == 1
  }

  lemma ClaimedBits(p: Fields)
    ensures FileClaimed(p) <==> OverloadValue(p) % 2 == 1
    ensures SnameClaimed(p) <==> OverloadValue(p) / 2 % 2 == 1
  {
    hide Options, First;
    assert OverloadValue(p) == if ClaimByte(p).Some? then ClaimByte(p).value else 0;
    hide OverloadValue, ClaimByte;
  }

  /** An environment has the two variables that are always there once, and each of the
      others once or not at all. */
  predicate FixedPart(vs: seq<Variable>, next: bool, file: bool, sname: bool) {
    && Times(vs, Interface) == 1 && Times(vs, YourIp) == 1
    && Times(vs, NextServer) == (if next then 1 else 0)
    && Times(vs, BootFile) == (if file then 1 else 0)
    && Times(vs, ServerName) == (if sname then 1 else 0)
  }

  lemma HeadFixed(siaddr: nat, overload: byte, file0: byte, sname0: byte)
    ensures FixedPart(HeadVariables(siaddr, overload, file0, sname0), siaddr != 0,
                      file0 != 0 && overload % 2 == 0, sname0 != 0 && overload / 2 % 2 == 0)
  {
  }

  predicate NoneFixed(vs: seq<Variable>) {
    && Times(vs, Interface) == 0 && Times(vs, YourIp) == 0 && Times(vs, NextServer) == 0
    && Times(vs, BootFile) == 0 && Times(vs, ServerName) == 0
  }

  lemma NamesNotFixed(found: seq<bool>, names: seq<byte>)
    requires |found| == 256
    ensures NoneFixed(NamedVariables(found, names) + UnnamedVariables(Unnamed(found, names), 0))
  {
    hide NamedVariables, UnnamedVariables, Unnamed, Times;
    NamesAndRestOnce(found, names, Interface);
    NamesAndRestOnce(found, names, YourIp);
    NamesAndRestOnce(found, names, NextServer);
    NamesAndRestOnce(found, names, BootFile);
    NamesAndRestOnce(found, names, ServerName);
  }

  /** Options are exported as other variables. */
  lemma OptionsNotFixed(found: seq<bool>)
    requires |found| == 256
    ensures NoneFixed(OptionVariables(found))
  {
    NamesNotFixed(found, NAMED);
    hide *;
  }

  lemma FixedBefore(head: seq<Variable>, rest: seq<Variable>, next: bool, file: bool, sname: bool)
    requires FixedPart(head, next, file, sname) && NoneFixed(rest)
    ensures FixedPart(head + rest, next, file, sname)
  {
    hide Times;
    TimesConcat(head, rest, Interface);
    TimesConcat(head, rest, YourIp);
    TimesConcat(head, rest, NextServer);
    TimesConcat(head, rest, BootFile);
    TimesConcat(head, rest, ServerName);
  }

  /** The next server is exported iff there is one, the boot file and the server name iff
      there is a first character and the first overload option does not claim the field. */
  lemma FixedExports(p: Fields, siaddr: nat)
    requires p.file != [] && p.sname != []
    ensures FixedPart(Exported(p, siaddr), siaddr != 0,
                      p.file[0] != 0 && !FileClaimed(p), p.sname[0] != 0 && !SnameClaimed(p))
  {
    hide OptionVariables, HeadVariables, FixedPart, NoneFixed, OverloadValue, FoundBits, ClaimByte;
    var ov, f, s := OverloadValue(p), p.file[0], p.sname[0];
    ClaimedBits(p);
    HeadFixed(siaddr, ov, f, s);
    OptionsNotFixed(FoundBits(p));
    FixedBefore(HeadVariables(siaddr, ov, f, s), OptionVariables(FoundBits(p)), siaddr != 0,
                f != 0 && ov % 2 == 0, s != 0 && ov / 2 % 2 == 0);
  }

  // ----- options or a name -----

  /** One overload option, the option `k` of the options field, and it has a value. */
  predicate OneOverload(p: Fields, k: nat) {
    var o, f, s := Entries(p.options), Entries(p.file), Entries(p.sname);
    && k < |o| && o[k].code == 52 && o[k].data != []
    && (forall j | 0 <= j < |o| && j != k :: o[j].code != 52)
    && (forall j | 0 <= j < |f| :: f[j].code != 52) && (forall j | 0 <= j < |s| :: s[j].code != 52)
  }

  lemma ReadAt(f: seq<byte>, k: nat)
    requires k < |Entries(f)| && Entries(f)[k].data != []
    ensures Entries(f)[k].pos + 2 < |f| && f[Entries(f)[k].pos + 2] == Entries(f)[k].data[0]
  {
    EntriesRead(f);
    hide Entries, FitsAt, EntryAt;
    DataBehind(f, Entries(f)[k]);
  }

  lemma ClaimOf(p: Fields, e: Entry)
    requires First(Options(p), 52) == Some(Found(OptionsField, e)) && e.pos + 2 < |p.options|
    ensures ClaimByte(p) == Some(p.options[e.pos + 2])
  {
    hide First, Options;
  }

  lemma OneClaimed(p: Fields, k: nat)
    requires OneOverload(p, k)
    ensures ClaimByte(p) == Some(Entries(p.options)[k].data[0])
  {
    FirstInOptions(p, k);
    ReadAt(p.options, k);
    hide First, Options, Entries, ClaimByte;
    ClaimOf(p, Entries(p.options)[k]);
  }

  lemma DataBehind(f: seq<byte>, e: Entry)
    requires FitsAt(f, e.pos) && e == EntryAt(f, e.pos) && e.data != []
    ensures e.pos + 2 < |f| && f[e.pos + 2] == e.data[0]
  {
  }

  lemma OneClaims(p: Fields, k: nat)
    requires OneOverload(p, k)
    ensures var b := Entries(p.options)[k].data[0];
      (FileClaimed(p) <==> b % 2 == 1) && (SnameClaimed(p) <==> b / 2 % 2 == 1)
  {
    OneClaimed(p, k);
    hide Entries, ClaimByte;
  }

  lemma OneNames(p: Fields, k: nat)
    requires OneOverload(p, k)
    ensures var o, b := Entries(p.options), Entries(p.options)[k].data[0];
      AllValued(p) && (NamesFile(o) <==> b % 2 == 1) && (NamesSname(o) <==> b / 2 % 2 == 1)
    ensures !NamesSname(Entries(p.file)) && !NamesFile(Entries(p.sname))
  {
    hide Entries;
  }

  /** Which fields the options of a message come from. */
  predicate Uses(p: Fields, field: Field) {
    exists k :: 0 <= k < |Options(p)| && Options(p)[k].field == field
  }

  lemma NotUsed(p: Fields)
    requires AllValued(p)
    ensures var o := Entries(p.options);
      && (!NamesFile(o) && !NamesFile(Entries(p.sname)) ==> !Uses(p, FileField))
      && (!NamesSname(o) && !NamesSname(Entries(p.file)) ==> !Uses(p, SnameField))
  {
    OptionsInOrder(p);
    hide Options, Entries, Terminated, NamesFile, NamesSname;
  }

  /** With one overload option no field is both searched for options and exported as a
      name. */
  lemma NoFieldTwice(p: Fields, siaddr: nat, k: nat)
    requires p.file != [] && p.sname != [] && OneOverload(p, k)
    ensures var vs := Exported(p, siaddr);
      (Times(vs, BootFile) > 0 ==> !Uses(p, FileField)) && (Times(vs, ServerName) > 0 ==> !Uses(p, SnameField))
  {
    FixedExports(p, siaddr);
    OneClaims(p, k);
    OneNames(p, k);
    NotUsed(p);
    hide Options, Exported, OneOverload, FileClaimed, ClaimByte, OptionVariables, HeadVariables, SnameClaimed, Entries, Terminated, NamesFile, NamesSname, Times, Uses;
  }

  /** The first overload option decides what is exported ... */
  lemma FirstDecides(p: Fields)
    requires var o := Entries(p.options); o != [] && o[0].code == 52 && o[0].data != [] && o[0].data[0] % 2 == 0
    ensures !FileClaimed(p)
  {
    FirstInOptions(p, 0);
    ReadAt(p.options, 0);
    hide First, Options, Entries, ClaimByte;
    ClaimOf(p, Entries(p.options)[0]);
  }

  /** ... and any of them puts the options of `file` in play. */
  lemma AnyUses(p: Fields)
    requires AllValued(p) && Terminated(p.options) && NamesFile(Entries(p.options)) && Entries(p.file) != []
    ensures Uses(p, FileField)
  {
    OptionsInOrder(p);
    var o, f := Entries(p.options), Entries(p.file);
    hide Options, Entries, Terminated, AllValued, NamesFile, NamesSname;
    assert Placed(FileField, f)[0] == Found(FileField, f[0]);
    assert Behind(p)[0] == Found(FileField, f[0]);
    assert Options(p)[|o|] == Found(FileField, f[0]);
  }

  lemma BootFileExported(p: Fields, siaddr: nat)
    requires p.file != [] && p.sname != [] && p.file[0] != 0 && !FileClaimed(p)
    ensures Times(Exported(p, siaddr), BootFile) == 1
  {
    FixedExports(p, siaddr);
    hide FileClaimed, SnameClaimed, Exported, Times;
  }

  lemma TwoOverloads(o: seq<Entry>)
    requires o == [Entry(0, 52, [2]), Entry(3, 52, [1])]
    ensures NamesFile(o) && o[0].code == 52 && o[0].data != [] && o[0].data[0] % 2 == 0
  {
    assert o[1].data[0] == 1;
  }

  /** With two it can happen: lookups heed both, the export only the first. */
  lemma FieldTwice(p: Fields, siaddr: nat)
    requires p.file != [] && p.sname != [] && p.file[0] != 0 && AllValued(p) && Terminated(p.options)
    requires Entries(p.options) == [Entry(0, 52, [2]), Entry(3, 52, [1])] && Entries(p.file) != []
    ensures Times(Exported(p, siaddr), BootFile) == 1 && Uses(p, FileField)
  {
    hide Exported, Times, Uses, AllValued, Terminated, Entries, NamesFile, FileClaimed;
    TwoOverloads(Entries(p.options));
    FirstDecides(p);
    AnyUses(p);
    BootFileExported(p, siaddr);
  }

  // ----- the options -----

  lemma PlacedCodes(p: Fields, field: Field)
    ensures forall x | x in Placed(field, Entries(p.Bytes(field))) :: x.entry.code != 0 && x.entry.code != 255
  {
    var es := Entries(p.Bytes(field));
    EntriesInside(p.Bytes(field), 0);
    forall x | x in Placed(field, es) ensures x.entry.code != 0 && x.entry.code != 255 {
      var k :| 0 <= k < |es| && x == Placed(field, es)[k];
      assert es[k] in es;
    }
  }

  lemma {:induction false} FromCodes(p: Fields, field: Field, ov: Overload)
    ensures forall x | x in From(p, field, 0, ov) :: x.entry.code != 0 && x.entry.code != 255
    decreases Unseen(ov), 1
  {
    PlacedCodes(p, field);
    FurtherCodes(p, NoteAll(ov, p.Bytes(field), Parse(p.Bytes(field), 0).entries));
    hide Parse, Further, Placed;
  }

  lemma {:induction false} FurtherCodes(p: Fields, ov: Overload)
    ensures forall x | x in Further(p, ov) :: x.entry.code != 0 && x.entry.code != 255
    decreases Unseen(ov), 0
  {
    if ov.file && !ov.fileSeen {
      FromCodes(p, FileField, ov.(fileSeen := true));
    } else if ov.sname && !ov.snameSeen {
      FromCodes(p, SnameField, ov.(snameSeen := true));
    }
  }

  /** The first pass misses no option of the message. */
  lemma FoundAll(p: Fields, c: byte)
    ensures FoundBits(p)[c] <==> First(Options(p), c).Some?
  {
    FromCodes(p, OptionsField, NoOverload);
    hide From, First;
    assert First(Options(p), c).Some? ==> c != 0 && c != 255;
  }

  lemma HeadNoOptions(siaddr: nat, overload: byte, file0: byte, sname0: byte, v: Variable)
    requires v.Known? || v.Unknown? || v.SubnetBits?
    ensures Times(HeadVariables(siaddr, overload, file0, sname0), v) == 0
  {
  }

  predicate HasName(c: byte) {
    c in NAMED
  }

  lemma OnceByName(found: seq<bool>, c: byte)
    requires |found| == 256
    ensures var vs, n := OptionVariables(found), if found[c] then 1 else 0;
      && Times(vs, Known(c)) == (if HasName(c) then n else 0) && Times(vs, Unknown(c)) == (if HasName(c) then 0 else n)
      && (c == 1 ==> Times(vs, SubnetBits) == n)
  {
    ExportedOnce(found, c);
    hide Times, OptionVariables;
  }

  /** Every option that a lookup finds, and no other, is exported, once: under its name if
      it has one and by its number if not; the subnet, 1, also as a number of bits. */
  lemma ExportedOptions(p: Fields, siaddr: nat, c: byte)
    requires p.file != [] && p.sname != []
    ensures var vs, n := Exported(p, siaddr), if First(Options(p), c).Some? then 1 else 0;
      && Times(vs, Known(c)) == (if HasName(c) then n else 0) && Times(vs, Unknown(c)) == (if HasName(c) then 0 else n)
      && (c == 1 ==> Times(vs, SubnetBits) == n)
  {
    FoundAll(p, c);
    hide OptionVariables, HeadVariables, OverloadValue, FoundBits, Times, HasName, Options, First;
    var head, rest := HeadVariables(siaddr, OverloadValue(p), p.file[0], p.sname[0]), OptionVariables(FoundBits(p));
    OnceByName(FoundBits(p), c);
    HeadNoOptions(siaddr, OverloadValue(p), p.file[0], p.sname[0], Known(c));
    HeadNoOptions(siaddr, OverloadValue(p), p.file[0], p.sname[0], Unknown(c));
    HeadNoOptions(siaddr, OverloadValue(p), p.file[0], p.sname[0], SubnetBits);
    TimesConcat(head, rest, Known(c));
    TimesConcat(head, rest, Unknown(c));
    TimesConcat(head, rest, SubnetBits);
  }

  /** The names run parallel to the first of the codes whose lengths are known. */
  lemma NamesRunParallel()
    ensures |NAMED| <= |SIMPLE_LENGTHS| && forall i | 0 <= i < |NAMED| :: SIMPLE_LENGTHS[i].0 == NAMED[i]
  {
  }
}
