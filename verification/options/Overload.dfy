/** What an overload option says, bit by bit, and where lookups go because of it. */
module OptionOverload {
  import opened Wrappers
  import opened OptionSpec
  import opened OptionLookups

  /** Among the options is an overload option, code 52, with the lowest bit set. */
  predicate NamesFile(es: seq<Entry>) {
    exists k :: 0 <= k < |es| && es[k].code == 52 && es[k].data != [] && es[k].data[0] % 2 == 1
  }

  /** Among the options is an overload option with the second bit set. */
  predicate NamesSname(es: seq<Entry>) {
    exists k :: 0 <= k < |es| && es[k].code == 52 && es[k].data != [] && es[k].data[0] / 2 % 2 == 1
  }

  /** Every overload option has a value. */
  predicate Valued(es: seq<Entry>) {
    forall k | 0 <= k < |es| :: es[k].code == 52 ==> es[k].data != []
  }

  predicate Reads(f: seq<byte>, es: seq<Entry>) {
    forall k | 0 <= k < |es| :: FitsAt(f, es[k].pos) && es[k] == EntryAt(f, es[k].pos)
  }

  lemma NamesStep(es: seq<Entry>)
    requires es != [] && Valued(es)
    ensures NamesFile(es) <==> (es[0].code == 52 && es[0].data[0] % 2 == 1) || NamesFile(es[1..])
    ensures NamesSname(es) <==> (es[0].code == 52 && es[0].data[0] / 2 % 2 == 1) || NamesSname(es[1..])
  {
    if NamesFile(es[1..]) {
      var k :| 0 <= k < |es[1..]| && es[1..][k].code == 52 && es[1..][k].data != [] && es[1..][k].data[0] % 2 == 1;
      assert es[k + 1] == es[1..][k];
    }
    if NamesSname(es[1..]) {
      var k :| 0 <= k < |es[1..]| && es[1..][k].code == 52 && es[1..][k].data != [] && es[1..][k].data[0] / 2 % 2 == 1;
      assert es[k + 1] == es[1..][k];
    }
    if NamesFile(es) {
      var k :| 0 <= k < |es| && es[k].code == 52 && es[k].data != [] && es[k].data[0] % 2 == 1;
      assert k > 0 ==> es[1..][k - 1] == es[k];
    }
    if NamesSname(es) {
      var k :| 0 <= k < |es| && es[k].code == 52 && es[k].data != [] && es[k].data[0] / 2 % 2 == 1;
      assert k > 0 ==> es[1..][k - 1] == es[k];
    }
  }

  lemma {:induction false} NoteAllNames(ov: Overload, f: seq<byte>, es: seq<Entry>)
    requires Valued(es) && Reads(f, es)
    ensures var r := NoteAll(ov, f, es);
      (r.file <==> ov.file || NamesFile(es)) && (r.sname <==> ov.sname || NamesSname(es))
    decreases |es|
  {
    if es != [] {
      NamesStep(es);
      NoteAllNames(Note(ov, f, es[0]), f, es[1..]);
      hide NamesFile, NamesSname;
    }
  }

  lemma EntriesRead(f: seq<byte>)
    ensures Reads(f, Entries(f))
  {
    EntriesInside(f, 0);
    var es := Entries(f);
    forall k | 0 <= k < |es| ensures FitsAt(f, es[k].pos) && es[k] == EntryAt(f, es[k].pos) {
      assert es[k] in es;
    }
  }

  /** The options field puts `file` in play iff one of its overload options has bit 0 set,
      and `sname` iff one has bit 1 set. */
  lemma InPlayIff(f: seq<byte>)
    requires Valued(Entries(f))
    ensures Named(f).file <==> NamesFile(Entries(f))
    ensures Named(f).sname <==> NamesSname(Entries(f))
  {
    EntriesRead(f);
    NoteAllNames(NoOverload, f, Entries(f));
    hide NamesFile, NamesSname;
  }

  // ----- the order in which the fields count -----

  /** What is found behind the options field: `file` before `sname`, each only if named by
      what has been walked before, and nothing behind a field without an end mark. */
  function Behind(p: Fields): seq<Found> {
    var o, f, s := Entries(p.options), Entries(p.file), Entries(p.sname);
    if !Terminated(p.options) then []
    else if NamesFile(o) then
      Placed(FileField, f)
      + if Terminated(p.file) && (NamesSname(o) || NamesSname(f)) then Placed(SnameField, s) else []
    else if NamesSname(o) then
      Placed(SnameField, s)
      + if Terminated(p.sname) && NamesFile(s) then Placed(FileField, f) else []
    else []
  }

  predicate AllValued(p: Fields) {
    Valued(Entries(p.options)) && Valued(Entries(p.file)) && Valued(Entries(p.sname))
  }

  /** The last field in play. */
  lemma LastField(p: Fields, field: Field, ov: Overload)
    requires ov.fileSeen && ov.snameSeen
    ensures From(p, field, 0, ov) == Placed(field, Entries(p.Bytes(field)))
  {
    hide Parse, NoteAll, Placed;
    assert Placed(field, Entries(p.Bytes(field))) + [] == Placed(field, Entries(p.Bytes(field)));
  }

  lemma BehindFile(p: Fields, ov: Overload)
    requires Valued(Entries(p.file)) && ov.file && !ov.fileSeen && !ov.snameSeen
    ensures Further(p, ov) == Placed(FileField, Entries(p.file))
      + if Terminated(p.file) && (ov.sname || NamesSname(Entries(p.file))) then Placed(SnameField, Entries(p.sname)) else []
  {
    var ov' := ov.(fileSeen := true);
    EntriesRead(p.file);
    NoteAllNames(ov', p.file, Entries(p.file));
    var ov'' := NoteAll(ov', p.file, Entries(p.file));
    LastField(p, SnameField, ov''.(snameSeen := true));
    hide Parse, NoteAll, Placed, NamesFile, NamesSname;
    assert Further(p, ov) == From(p, FileField, 0, ov');
    assert Further(p, ov'') == if ov''.sname then Placed(SnameField, Entries(p.sname)) else [];
    hide Further;
  }

  lemma BehindSname(p: Fields, ov: Overload)
    requires Valued(Entries(p.sname)) && !ov.file && ov.sname && !ov.fileSeen && !ov.snameSeen
    ensures Further(p, ov) == Placed(SnameField, Entries(p.sname))
      + if Terminated(p.sname) && NamesFile(Entries(p.sname)) then Placed(FileField, Entries(p.file)) else []
  {
    var ov' := ov.(snameSeen := true);
    EntriesRead(p.sname);
    NoteAllNames(ov', p.sname, Entries(p.sname));
    var ov'' := NoteAll(ov', p.sname, Entries(p.sname));
    LastField(p, FileField, ov''.(fileSeen := true));
    hide Parse, NoteAll, Placed, NamesFile, NamesSname;
    assert Further(p, ov) == From(p, SnameField, 0, ov');
    assert Further(p, ov'') == if ov''.file then Placed(FileField, Entries(p.file)) else [];
    hide Further;
  }

  /** The options of a message, field after field as the overload bits say. */
  lemma OptionsInOrder(p: Fields)
    requires AllValued(p)
    ensures Options(p) == Placed(OptionsField, Entries(p.options)) + Behind(p)
  {
    var ov := Named(p.options);
    InPlayIff(p.options);
    if Terminated(p.options) {
      OptionsOf(p);
      hide Parse, NoteAll, Placed, NamesFile, NamesSname;
      if ov.file {
        BehindFile(p, ov);
      } else if ov.sname {
        BehindSname(p, ov);
      }
    }
  }

  /** A lookup of a code that the options field lacks takes the first of the options
      behind it. */
  lemma LookupBehind(p: Fields, code: int)
    requires AllValued(p) && forall k | 0 <= k < |Entries(p.options)| :: Entries(p.options)[k].code != code
    ensures First(Options(p), code) == First(Behind(p), code)
  {
    OptionsInOrder(p);
    FirstOfConcat(Placed(OptionsField, Entries(p.options)), Behind(p), code);
    assert First(Placed(OptionsField, Entries(p.options)), code) == None;
    hide Options, Behind, Placed;
  }

  lemma OptionThenEnd(f: seq<byte>, n: byte)
    requires |f| > n as int + 2 && f[0] != 0 && f[0] != 255 && f[1] == n && f[2 + n] == 255
    ensures Parse(f, 0) == Walk([Entry(0, f[0], f[2..2 + n])], EndMark(2 + n))
  {
    ParseStep(f, 0);
    assert EntryAt(f, 0) == Entry(0, f[0], f[2..2 + n]);
    assert Parse(f, 2 + n) == Walk([], EndMark(2 + n));
  }

  /** With the overload value 1, the router in `file` is found. */
  lemma RouterInFile(p: Fields)
    requires |p.options| > 3 && p.options[..4] == [52, 1, 1, 255]
    requires |p.file| > 6 && p.file[..7] == [3, 4, 10, 0, 0, 1, 255]
    requires |p.sname| > 0 && p.sname[0] == 255
    ensures First(Options(p), 3) == Some(Found(FileField, Entry(0, 3, [10, 0, 0, 1])))
  {
    var o, f := p.options, p.file;
    var router := Entry(0, 3, [10, 0, 0, 1]);
    assert o[..4][0] == 52 && o[..4][1] == 1 && o[..4][3] == 255 && o[2..3] == o[..4][2..3] == [1];
    assert f[..7][0] == 3 && f[..7][1] == 4 && f[..7][6] == 255 && f[2..6] == f[..7][2..6] == [10, 0, 0, 1];
    OptionThenEnd(o, 1);
    OptionThenEnd(f, 4);
    assert Parse(p.sname, 0) == Walk([], EndMark(0));
    hide Parse;
    FoundInFile(p, router);
  }

  lemma FoundInFile(p: Fields, e: Entry)
    requires Entries(p.options) == [Entry(0, 52, [1])] && Terminated(p.options)
    requires Entries(p.file) == [e] && Entries(p.sname) == [] && e.code != 52
    ensures First(Options(p), e.code) == Some(Found(FileField, e))
  {
    hide Entries, Terminated;
    LookupBehind(p, e.code);
    assert Entries(p.options)[0] == Entry(0, 52, [1]);
    assert NamesFile(Entries(p.options));
    assert Placed(FileField, [e])[0] == Found(FileField, e);
    hide Options, Placed, NamesFile, NamesSname;
    assert Behind(p)[0] == Found(FileField, e);
  }
}
