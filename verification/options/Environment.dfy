/** fill_envp: the environment of the client's script.  A variable is named here by what
    it reports; its text is not modelled. */
module OptionEnvironment {
  import opened Wrappers
  import opened OptionSpec
  import opened OptionPacket

  datatype Variable =
    | Interface | YourIp | NextServer | BootFile | ServerName
    | Known(code: byte) | SubnetBits | Unknown(code: byte)

  const DHCP_SUBNET: byte := 1

  /** The codes of the options that have names, in the order of the name table. */
  const NAMED: seq<byte> := [
    0x01, 0x02, 0x03, 0x06, 0x09, 0x0c, 0x0d, 0x0f, 0x10, 0x11, 0x17, 0x1a, 0x1c, 0x21, 0x28, 0x29, 0x2a,
    0x2c, 0x33, 0x36, 0x38, 0x42, 0x43, 0x79, 0xd1, 0xd4, 0xf9, 0xfc]

  /** The bits of `found` from `i` on. */
  function Count(found: seq<bool>, i: nat): nat
    decreases |found| - i
  {
    if i >= |found| then 0 else (if found[i] then 1 else 0) + Count(found, i + 1)
  }

  lemma {:induction false} CountClear(found: seq<bool>, i: nat, c: nat)
    requires i <= c < |found| && found[c]
    ensures Count(found[c := false], i) == Count(found, i) - 1
    decreases c - i
  {
    if i < c {
      CountClear(found, i + 1, c);
    } else {
      CountAbove(found, found[c := false], i + 1);
    }
  }

  lemma {:induction false} CountAbove(a: seq<bool>, b: seq<bool>, i: nat)
    requires |a| == |b| && forall k | i <= k < |a| :: a[k] == b[k]
    ensures Count(a, i) == Count(b, i)
    decreases |a| - i
  {
    if i < |a| {
      CountAbove(a, b, i + 1);
    }
  }

  // ----- what is exported -----

  function VariablesFor(code: byte): seq<Variable> {
    if code == DHCP_SUBNET then [Known(code), SubnetBits] else [Known(code)]
  }

  /** The named options among those found, the subnet also as a number of bits. */
  function NamedVariables(found: seq<bool>, names: seq<byte>): seq<Variable>
    requires |found| == 256
    decreases |names|
  {
    if names == [] then []
    else if !found[names[0]] then NamedVariables(found, names[1..])
    else VariablesFor(names[0]) + NamedVariables(found[names[0] := false], names[1..])
  }

  /** What is left of `found` after that. */
  function Unnamed(found: seq<bool>, names: seq<byte>): (r: seq<bool>)
    requires |found| == 256
    ensures |r| == 256
    ensures forall c | 0 <= c < 256 :: r[c] <==> found[c] && c !in names
    decreases |names|
  {
    if names == [] then found else Unnamed(found[names[0] := false], names[1..])
  }

  function UnnamedVariables(found: seq<bool>, i: nat): seq<Variable>
    requires |found| == 256
    decreases 256 - i
  {
    if i >= 256 then []
    else (if found[i] then [Unknown(i)] else []) + UnnamedVariables(found, i + 1)
  }

  function OptionVariables(found: seq<bool>): seq<Variable>
    requires |found| == 256
  {
    NamedVariables(found, NAMED) + UnnamedVariables(Unnamed(found, NAMED), 0)
  }

  function Times(vs: seq<Variable>, v: Variable): nat {
    multiset(vs)[v]
  }

  lemma TimesConcat(a: seq<Variable>, b: seq<Variable>, v: Variable)
    ensures Times(a + b, v) == Times(a, v) + Times(b, v)
  {
  }

  /** How often a variable is among the named ones. */
  function NamedTimes(found: seq<bool>, names: seq<byte>, v: Variable): nat
    requires |found| == 256
  {
    match v
    case Known(c) => if found[c] && c in names then 1 else 0
    case SubnetBits => if found[DHCP_SUBNET] && DHCP_SUBNET in names then 1 else 0
    case _ => 0
  }

  lemma {:induction false} NamedOnce(found: seq<bool>, names: seq<byte>, v: Variable)
    requires |found| == 256
    ensures Times(NamedVariables(found, names), v) == NamedTimes(found, names, v)
    decreases |names|
  {
    if names != [] {
      var n := names[0];
      assert names == [n] + names[1..];
      if found[n] {
        var rest := NamedVariables(found[n := false], names[1..]);
        NamedOnce(found[n := false], names[1..], v);
        TimesConcat(VariablesFor(n), rest, v);
        TimesFor(n, v);
        hide Times;
      } else {
        NamedOnce(found, names[1..], v);
      }
    }
  }

  lemma TimesFor(code: byte, v: Variable)
    ensures Times(VariablesFor(code), v)
         == if v == Known(code) || (v == SubnetBits && code == DHCP_SUBNET) then 1 else 0
  {
  }

  lemma {:induction false} UnnamedOnce(found: seq<bool>, i: nat, v: Variable)
    requires |found| == 256 && i <= 256
    ensures Times(UnnamedVariables(found, i), v) == if v.Unknown? && i <= v.code && found[v.code] then 1 else 0
    decreases 256 - i
  {
    if i < 256 {
      UnnamedOnce(found, i + 1, v);
      TimesConcat(if found[i] then [Unknown(i)] else [], UnnamedVariables(found, i + 1), v);
      TimesOne(Unknown(i), v);
      hide Times;
    }
  }

  lemma TimesOne(x: Variable, v: Variable)
    ensures Times([x], v) == (if v == x then 1 else 0) && Times([], v) == 0
  {
  }

  lemma NamesAndRestOnce(found: seq<bool>, names: seq<byte>, v: Variable)
    requires |found| == 256
    ensures Times(NamedVariables(found, names) + UnnamedVariables(Unnamed(found, names), 0), v)
         == NamedTimes(found, names, v) + if v.Unknown? && found[v.code] && v.code !in names then 1 else 0
  {
    hide NamedVariables, UnnamedVariables, Unnamed, Times;
    NamedOnce(found, names, v);
    UnnamedOnce(Unnamed(found, names), 0, v);
    TimesConcat(NamedVariables(found, names), UnnamedVariables(Unnamed(found, names), 0), v);
  }

  lemma OnceEach(found: seq<bool>, names: seq<byte>, c: byte)
    requires |found| == 256 && DHCP_SUBNET in names
    ensures var vs := NamedVariables(found, names) + UnnamedVariables(Unnamed(found, names), 0);
      && Times(vs, Known(c)) == (if found[c] && c in names then 1 else 0)
      && Times(vs, Unknown(c)) == (if found[c] && c !in names then 1 else 0)
      && Times(vs, SubnetBits) == (if found[DHCP_SUBNET] then 1 else 0)
  {
    hide NamedVariables, UnnamedVariables, Unnamed, Times;
    NamesAndRestOnce(found, names, Known(c));
    NamesAndRestOnce(found, names, Unknown(c));
    NamesAndRestOnce(found, names, SubnetBits);
  }

  /** Every option found is exported exactly once, under its name if it has one, the subnet
      also as a number of bits; no other option is exported. */
  lemma ExportedOnce(found: seq<bool>, c: byte)
    requires |found| == 256
    ensures Times(OptionVariables(found), Known(c)) == if found[c] && c in NAMED then 1 else 0
    ensures Times(OptionVariables(found), Unknown(c)) == if found[c] && c !in NAMED then 1 else 0
    ensures Times(OptionVariables(found), SubnetBits) == if found[DHCP_SUBNET] then 1 else 0
  {
    assert NAMED[0] == DHCP_SUBNET;
    OnceEach(found, NAMED, c);
    hide *;
  }

  // ----- the two passes -----

  /** What the first pass looks for: the options with codes 1 to 254 that a lookup finds. */
  ghost function FoundBits(p: Fields): (r: seq<bool>)
    ensures |r| == 256
  {
    seq(256, i => 0 < i < 255 && First(Options(p), i).Some?)
  }

  predicate WordEmpty(found: seq<bool>, w: nat)
    requires |found| == 256 && w < 8
  {
    forall k | 32 * w <= k < 32 * w + 32 :: !found[k]
  }

  lemma CountSet(found: seq<bool>, c: nat)
    requires c < |found| && !found[c]
    ensures Count(found[c := true], 0) == Count(found, 0) + 1
  {
    CountClear(found[c := true], 0, c);
    assert found[c := true][c := false] == found;
  }

  lemma {:induction false} CountNone(found: seq<bool>, i: nat)
    requires forall k | i <= k < |found| :: !found[k]
    ensures Count(found, i) == 0
    decreases |found| - i
  {
    if i < |found| {
      CountNone(found, i + 1);
    }
  }

  /** One pointer more for the subnet, which is also exported as a number of bits. */
  function ForSubnet(found: seq<bool>): nat
    requires |found| == 256
  {
    if found[DHCP_SUBNET] then 1 else 0
  }

  /** The value of the overload option as fill_envp reads it. */
  ghost function OverloadValue(p: Fields): byte {
    match First(Options(p), DHCP_OPTION_OVERLOAD)
    case None => 0
    case Some(x) => OverloadByte(p.Bytes(x.field), x.entry.pos)
  }

  /** The first pass: sets the bits of the options found, reads the overload option, and
      counts the pointers that the environment can need. */
  method FindOptions(packet: DhcpPacket) returns (found: array<bool>, overload: byte, envc: nat)
    requires packet.Valid()
    ensures fresh(found) && found.Length == 256 && found[..] == FoundBits(packet.Value())
    ensures overload == OverloadValue(packet.Value())
    ensures envc == 6 + Count(found[..], 0) + ForSubnet(found[..])
  {
    hide Options, First, Count;
    ghost var p := packet.Value();
    found := new bool[256](_ => false);
    overload, envc := 0, 6;
    CountNone(found[..], 0);
    var i: byte := 1;
    while i < 255
      invariant 1 <= i <= 255
      invariant forall k | 0 <= k < 256 :: found[k] == (0 < k < i && First(Options(p), k).Some?)
      invariant overload == if i > DHCP_OPTION_OVERLOAD then OverloadValue(p) else 0
      invariant envc == 6 + Count(found[..], 0) + ForSubnet(found[..])
    {
      var temp := packet.GetOption(i);
      if temp.Some? {
        if i == DHCP_OPTION_OVERLOAD {
          var (field, ofs) := temp.value;
          var buffer := packet.Buffer(field);
          assert p.Bytes(field) == buffer[..];
          overload := if ofs < buffer.Length then buffer[ofs] else 0;
        } else if i == DHCP_SUBNET {
          envc := envc + 1;
        }
        envc := envc + 1;
        CountSet(found[..], i);
        ghost var was := found[..];
        found[i] := true;
        assert found[..] == was[i as int := true];
      }
      i := i + 1;
    }
  }

  // ----- the second pass -----

  /** The variables that come from the fixed part of the message. */
  function HeadVariables(siaddr: nat, overload: byte, file0: byte, sname0: byte): (r: seq<Variable>)
    ensures 2 <= |r| <= 5
  {
    [Interface, YourIp]
    + (if siaddr != 0 then [NextServer] else [])
    + (if overload % 2 == 0 && file0 != 0 then [BootFile] else [])
    + (if overload / 2 % 2 == 0 && sname0 != 0 then [ServerName] else [])
  }

  /** `envp` holds `vs` and behind them, in at least one place, what the allocator left. */
  ghost predicate Holds(envp: array<Option<Variable>>, vs: seq<Variable>, alloc: seq<Option<Variable>>)
    reads envp
  {
    && |vs| < envp.Length == |alloc|
    && (forall k | 0 <= k < |vs| :: envp[k] == Some(vs[k]))
    && (forall k | |vs| <= k < envp.Length :: envp[k] == alloc[k])
  }

  /** What a loop that stops at the first NULL pointer sees. */
  function UpToNull(s: seq<Option<Variable>>): seq<Variable> {
    if s == [] || s[0] == None then [] else [s[0].value] + UpToNull(s[1..])
  }

  lemma {:induction false} UpToNullIff(s: seq<Option<Variable>>, vs: seq<Variable>)
    requires |vs| < |s| && forall k | 0 <= k < |vs| :: s[k] == Some(vs[k])
    ensures UpToNull(s) == vs <==> s[|vs|] == None
  {
    if vs != [] {
      UpToNullIff(s[1..], vs[1..]);
      assert vs == [vs[0]] + vs[1..];
      assert UpToNull(s)[1..] == UpToNull(s[1..]);
    }
  }

  /** `*curr++ = v`: there must be a pointer left besides the terminating one. */
  method Put(envp: array<Option<Variable>>, curr: nat, v: Variable,
             ghost vs: seq<Variable>, ghost alloc: seq<Option<Variable>>)
    returns (curr': nat)
    requires Holds(envp, vs, alloc) && curr == |vs| && curr + 1 < envp.Length
    modifies envp
    ensures Holds(envp, vs + [v], alloc) && curr' == curr + 1
  {
    envp[curr] := Some(v);
    curr' := curr + 1;
  }

  /** One turn of the loop over the name table. */
  method ExportIfFound(envp: array<Option<Variable>>, found: array<bool>, code: byte, curr0: nat,
                       ghost vs0: seq<Variable>, ghost alloc: seq<Option<Variable>>)
    returns (curr: nat, ghost vs: seq<Variable>)
    requires found.Length == 256
    requires Holds(envp, vs0, alloc) && curr0 == |vs0|
    requires curr0 + Count(found[..], 0) + ForSubnet(found[..]) < envp.Length
    modifies envp, found
    ensures Holds(envp, vs, alloc) && curr == |vs|
    ensures vs == if old(found[code]) then vs0 + VariablesFor(code) else vs0
    ensures found[..] == old(found[..])[code as int := false]
    ensures curr + Count(found[..], 0) + ForSubnet(found[..]) < envp.Length
  {
    hide Count, Holds;
    curr, vs := curr0, vs0;
    ghost var f := found[..];
    if found[code] {
      CountClear(f, 0, code);
      found[code] := false;
      assert found[..] == f[code as int := false];
      curr := Put(envp, curr, Known(code), vs, alloc);
      vs := vs + [Known(code)];
      if code == DHCP_SUBNET {
        curr := Put(envp, curr, SubnetBits, vs, alloc);
        vs := vs + [SubnetBits];
      }
    } else {
      assert f[code as int := false] == f;
    }
  }

  lemma NamedStep(found: seq<bool>, names: seq<byte>, i: nat)
    requires |found| == 256 && i < |names|
    ensures var f := found[names[i] as int := false];
      && NamedVariables(found, names[i..]) ==
           (if found[names[i]] then VariablesFor(names[i]) else []) + NamedVariables(f, names[i + 1..])
      && Unnamed(found, names[i..]) == Unnamed(f, names[i + 1..])
  {
    assert names[i..][1..] == names[i + 1..] && names[i..][0] == names[i];
    if !found[names[i]] {
      assert found[names[i] as int := false] == found;
    }
  }

  /** The loop over the name table. */
  method ExportNamed(envp: array<Option<Variable>>, found: array<bool>, names: seq<byte>, curr0: nat,
                     ghost vs0: seq<Variable>, ghost alloc: seq<Option<Variable>>)
    returns (curr: nat, ghost vs: seq<Variable>)
    requires found.Length == 256
    requires Holds(envp, vs0, alloc) && curr0 == |vs0|
    requires curr0 + Count(found[..], 0) + ForSubnet(found[..]) < envp.Length
    modifies envp, found
    ensures Holds(envp, vs, alloc) && curr == |vs|
    ensures vs == vs0 + NamedVariables(old(found[..]), names)
    ensures found[..] == Unnamed(old(found[..]), names)
    ensures curr + Count(found[..], 0) < envp.Length
  {
    hide Count, Holds, VariablesFor;
    curr, vs := curr0, vs0;
    ghost var goal, left := vs0 + NamedVariables(found[..], names), Unnamed(found[..], names);
    var i := 0;
    assert names[0..] == names;
    while i < |names|
      invariant 0 <= i <= |names|
      invariant Holds(envp, vs, alloc) && curr == |vs|
      invariant vs + NamedVariables(found[..], names[i..]) == goal
      invariant Unnamed(found[..], names[i..]) == left
      invariant curr + Count(found[..], 0) + ForSubnet(found[..]) < envp.Length
    {
      NamedStep(found[..], names, i);
      Regroup(vs, VariablesFor(names[i]), NamedVariables(found[..][names[i] as int := false], names[i + 1..]));
      Regroup(vs, [], NamedVariables(found[..][names[i] as int := false], names[i + 1..]));
      curr, vs := ExportIfFound(envp, found, names[i], curr, vs, alloc);
      i := i + 1;
    }
    assert names[i..] == [];
  }

  lemma {:induction false} SkipUnset(found: seq<bool>, i: nat, j: nat)
    requires |found| == 256 && i <= j <= 256 && forall k | i <= k < j :: !found[k]
    ensures UnnamedVariables(found, i) == UnnamedVariables(found, j)
    ensures Count(found, i) == Count(found, j)
    decreases j - i
  {
    if i < j {
      SkipUnset(found, i + 1, j);
      assert [] + UnnamedVariables(found, i + 1) == UnnamedVariables(found, i + 1);
    }
  }

  lemma NothingAbove(found: seq<bool>)
    requires |found| == 256
    ensures UnnamedVariables(found, 256) == []
  {
  }

  lemma UnnamedStep(found: seq<bool>, i: nat, vs: seq<Variable>)
    requires |found| == 256 && i < 256 && found[i]
    ensures vs + UnnamedVariables(found, i) == (vs + [Unknown(i)]) + UnnamedVariables(found, i + 1)
    ensures Count(found, i) == 1 + Count(found, i + 1)
  {
    Regroup(vs, [Unknown(i)], UnnamedVariables(found, i + 1));
  }

  lemma SameWord(i: nat)
    requires (i + 1) % 32 != 0
    ensures (i + 1) / 32 == i / 32
  {
  }

  lemma EmptyWordAhead(found: seq<bool>, i: nat)
    requires |found| == 256 && i < 256 && i % 32 == 0 && WordEmpty(found, i / 32)
    ensures i + 32 <= 256 && forall k | i <= k < i + 32 :: !found[k]
  {
    assert 32 * (i / 32) == i;
  }

  /** The loop over the bits that are left; it steps over empty words of 32 bits.  The
      step never skips a bit: inside a word that is not empty it goes bit by bit, so it
      meets an empty word only at its start. */
  method ExportUnnamed(envp: array<Option<Variable>>, found: array<bool>, curr0: nat,
                       ghost vs0: seq<Variable>, ghost alloc: seq<Option<Variable>>)
    returns (curr: nat, ghost vs: seq<Variable>)
    requires found.Length == 256
    requires Holds(envp, vs0, alloc) && curr0 == |vs0|
    requires curr0 + Count(found[..], 0) < envp.Length
    modifies envp
    ensures Holds(envp, vs, alloc) && curr == |vs|
    ensures vs == vs0 + UnnamedVariables(found[..], 0)
  {
    hide Count, Holds, WordEmpty, UnnamedVariables;
    curr, vs := curr0, vs0;
    ghost var goal := vs0 + UnnamedVariables(found[..], 0);
    var i := 0;
    while i < 256
      invariant 0 <= i <= 256
      invariant i < 256 && i % 32 != 0 ==> !WordEmpty(found[..], i / 32)
      invariant Holds(envp, vs, alloc) && curr == |vs|
      invariant vs + UnnamedVariables(found[..], i) == goal
      invariant curr + Count(found[..], i) < envp.Length
      decreases 256 - i
    {
      if WordEmpty(found[..], i / 32) {
        EmptyWordAhead(found[..], i);
        SkipUnset(found[..], i, i + 32);
        i := i + 32;
        continue;
      }
      if found[i] {
        UnnamedStep(found[..], i, vs);
        curr := Put(envp, curr, Unknown(i), vs, alloc);
        vs := vs + [Unknown(i)];
      } else {
        SkipUnset(found[..], i, i + 1);
      }
      if (i + 1) % 32 != 0 { SameWord(i); }
      i := i + 1;
    }
    NothingAbove(found[..]);
    Regroup(vs, [], []);
  }

  /** The fixed part of the message. */
  method ExportHead(envp: array<Option<Variable>>, siaddr: nat, overload: byte, file0: byte, sname0: byte,
                    ghost alloc: seq<Option<Variable>>)
    returns (curr: nat)
    requires Holds(envp, [], alloc) && envp.Length >= 6
    modifies envp
    ensures Holds(envp, HeadVariables(siaddr, overload, file0, sname0), alloc)
    ensures curr == |HeadVariables(siaddr, overload, file0, sname0)|
  {
    hide Holds;
    ghost var vs: seq<Variable> := [];
    curr := Put(envp, 0, Interface, vs, alloc);
    vs := vs + [Interface];
    curr := Put(envp, curr, YourIp, vs, alloc);
    vs := vs + [YourIp];
    if siaddr != 0 {
      curr := Put(envp, curr, NextServer, vs, alloc);
      vs := vs + [NextServer];
    }
    if overload % 2 == 0 && file0 != 0 {
      curr := Put(envp, curr, BootFile, vs, alloc);
      vs := vs + [BootFile];
    }
    if overload / 2 % 2 == 0 && sname0 != 0 {
      curr := Put(envp, curr, ServerName, vs, alloc);
      vs := vs + [ServerName];
    }
    assert vs == HeadVariables(siaddr, overload, file0, sname0);
  }

  /** Every variable of a message's environment, in order. */
  ghost function Exported(p: Fields, siaddr: nat): seq<Variable>
    requires p.file != [] && p.sname != []
  {
    HeadVariables(siaddr, OverloadValue(p), p.file[0], p.sname[0]) + OptionVariables(FoundBits(p))
  }

  /** fill_envp for a message: the variables written are the fixed ones and then those of
      the options found, each exactly once, and the last place stays unwritten.  Memory
      from the allocator may hold anything, so that udhcp_run_script, which reads the
      vector up to a NULL pointer, sees just these variables if and only if the allocator
      happened to leave one behind them. */
  method FillEnvp(packet: DhcpPacket, siaddr: nat)
    returns (envp: array<Option<Variable>>, ghost alloc: seq<Option<Variable>>)
    requires packet.Valid()
    ensures var p := packet.Value();
      var vs := Exported(p, siaddr);
      && |vs| < envp.Length
      && (forall k | 0 <= k < |vs| :: envp[k] == Some(vs[k]))
      && (UpToNull(envp[..]) == vs <==> envp[|vs|] == None)
    ensures var p := packet.Value();
      var vs := Exported(p, siaddr);
      Holds(envp, vs, alloc) && envp[|vs|] == alloc[|vs|]
  {
    hide Count, OverloadValue, FoundBits, NamedVariables, UnnamedVariables, Unnamed, Options, First, UpToNull;
    ghost var p := packet.Value();
    var found, overload, envc := FindOptions(packet);
    ghost var bits := found[..];
    envp := new Option<Variable>[envc];
    alloc := envp[..];
    var curr := ExportHead(envp, siaddr, overload, packet.file[0], packet.sname[0], alloc);
    ghost var head := HeadVariables(siaddr, overload, p.file[0], p.sname[0]);
    ghost var vs, vs';
    curr, vs := ExportNamed(envp, found, NAMED, curr, head, alloc);
    curr, vs' := ExportUnnamed(envp, found, curr, vs, alloc);
    Regroup(head, NamedVariables(bits, NAMED), UnnamedVariables(Unnamed(bits, NAMED), 0));
    UpToNullIff(envp[..], vs');
  }

  lemma NoOptions(p: Fields, code: int)
    requires p.options != [] && p.options[0] == DHCP_END
    ensures First(Options(p), code) == None
  {
    FromStep(p, OptionsField, 0, NoOverload);
    hide From;
    assert Options(p) == [];
  }

  lemma {:induction false} NoneNamed(found: seq<bool>, names: seq<byte>)
    requires |found| == 256 && forall c | 0 <= c < 256 :: !found[c]
    ensures NamedVariables(found, names) == []
    decreases |names|
  {
    if names != [] {
      NoneNamed(found, names[1..]);
    }
  }

  lemma NoneExported(found: seq<bool>)
    requires |found| == 256 && forall c | 0 <= c < 256 :: !found[c]
    ensures OptionVariables(found) == [] && Count(found, 0) == 0
  {
    CountNone(found, 0);
    NoneLeft(found, NAMED);
    hide *;
  }

  lemma NoneLeft(found: seq<bool>, names: seq<byte>)
    requires |found| == 256 && forall c | 0 <= c < 256 :: !found[c]
    ensures NamedVariables(found, names) + UnnamedVariables(Unnamed(found, names), 0) == []
  {
    hide NamedVariables, UnnamedVariables;
    NoneNamed(found, names);
    SkipUnset(Unnamed(found, names), 0, 256);
    NothingAbove(Unnamed(found, names));
  }

  /** A message without options, names or a next server: its environment is two variables
      in a vector of six places, and a stale pointer in the third is read as one more. */
  lemma StalePointerRead(p: Fields, alloc: seq<Option<Variable>>)
    requires p.options != [] && p.file != [] && p.sname != []
    requires p.options[0] == DHCP_END && p.file[0] == 0 && p.sname[0] == 0
    requires |alloc| == 6 && alloc[2].Some?
    ensures 6 + Count(FoundBits(p), 0) + ForSubnet(FoundBits(p)) == 6
    ensures Exported(p, 0) == [Interface, YourIp]
    ensures [Interface, YourIp, alloc[2].value] <= UpToNull([Some(Interface), Some(YourIp)] + alloc[2..])
  {
    EmptyMessage(p);
    hide *;
    ReadOn(alloc);
  }

  lemma EmptyMessage(p: Fields)
    requires p.options != [] && p.file != [] && p.sname != []
    requires p.options[0] == DHCP_END && p.file[0] == 0 && p.sname[0] == 0
    ensures 6 + Count(FoundBits(p), 0) + ForSubnet(FoundBits(p)) == 6
    ensures Exported(p, 0) == [Interface, YourIp]
  {
    NothingFound(p);
    ShortestHead(OverloadValue(p));
    NoneExported(FoundBits(p));
    assert ForSubnet(FoundBits(p)) == 0;
    assert Exported(p, 0) == HeadVariables(0, OverloadValue(p), p.file[0], p.sname[0]) + OptionVariables(FoundBits(p));
    hide *;
    assert [Interface, YourIp] + [] == [Interface, YourIp];
  }

  lemma NothingFound(p: Fields)
    requires p.options != [] && p.options[0] == DHCP_END
    ensures OverloadValue(p) == 0 && forall c | 0 <= c < 256 :: !FoundBits(p)[c]
  {
    hide Options, First;
    NoOptions(p, DHCP_OPTION_OVERLOAD);
    forall c | 0 <= c < 256 ensures !FoundBits(p)[c] {
      NoOptions(p, c);
    }
  }

  lemma ShortestHead(overload: byte)
    ensures HeadVariables(0, overload, 0, 0) == [Interface, YourIp]
  {
  }

  lemma ReadOn(alloc: seq<Option<Variable>>)
    requires |alloc| == 6 && alloc[2].Some?
    ensures [Interface, YourIp, alloc[2].value] <= UpToNull([Some(Interface), Some(YourIp)] + alloc[2..])
  {
    hide UpToNull;
    var rest := alloc[3..];
    assert alloc[2..] == [alloc[2]] + rest;
    UpToNullStep(alloc[2].value, rest);
    UpToNullStep(YourIp, [alloc[2]] + rest);
    UpToNullStep(Interface, [Some(YourIp)] + ([alloc[2]] + rest));
    assert [Some(Interface), Some(YourIp)] + alloc[2..] == [Some(Interface)] + ([Some(YourIp)] + ([alloc[2]] + rest));
  }

  lemma UpToNullStep(v: Variable, s: seq<Option<Variable>>)
    ensures UpToNull([Some(v)] + s) == [v] + UpToNull(s)
  {
    assert ([Some(v)] + s)[1..] == s;
  }
}
