/** A DHCP message in memory and the functions that read and extend its options. */
module OptionPacket {
  import opened Wrappers
  import opened OptionSpec
  import opened OptionAppend

  /** The codes of dhcp_optflags, in its order, with the lengths that dhcp_option_lengths
      gives their types. */
  const SIMPLE_LENGTHS: seq<(byte, byte)> := [
    (0x01, 4), (0x02, 4), (0x03, 4), (0x06, 4), (0x09, 4), (0x0c, 1), (0x0d, 2), (0x0f, 1), (0x10, 4),
    (0x11, 1), (0x17, 1), (0x1a, 2), (0x1c, 4), (0x21, 8), (0x28, 1), (0x29, 4), (0x2a, 4), (0x2c, 4),
    (0x33, 4), (0x36, 4), (0x38, 1), (0x42, 1), (0x43, 1), (0x79, 5), (0xd1, 1), (0xd4, 22), (0xf9, 5),
    (0xfc, 1), (0x32, 4), (0x35, 1), (0x39, 2)]

  /** The length that the tables give an option, if they know its code. */
  function SimpleLength(code: byte, table: seq<(byte, byte)>): Option<byte> {
    if table == [] then None
    else if table[0].0 == code then Some(table[0].1)
    else SimpleLength(code, table[1..])
  }

  /** A 32-bit value as it lies in the memory of a little-endian machine. */
  function LittleEndian(value: nat): (r: seq<byte>)
    ensures |r| == 4
  {
    [value % 256, value / 256 % 256, value / 0x1_0000 % 256, value / 0x100_0000 % 256]
  }

  class DhcpPacket {
    const options: array<byte>
    const file: array<byte>
    const sname: array<byte>

    ghost predicate Valid() {
      && options.Length == OPTIONS_SIZE && file.Length == FILE_SIZE && sname.Length == SNAME_SIZE
      && options != file && options != sname
    }

    ghost function Value(): Fields
      reads options, file, sname
    {
      Fields(options[..], file[..], sname[..])
    }

    function Buffer(field: Field): array<byte> {
      match field
      case OptionsField => options
      case FileField => file
      case SnameField => sname
    }

    constructor ()
      ensures Valid() && fresh(options) && fresh(file) && fresh(sname)
      ensures Terminated(options[..]) && Entries(options[..]) == [] && EndOf(options[..]) == 0
      ensures file[..] == seq(FILE_SIZE, _ => 0) && sname[..] == seq(SNAME_SIZE, _ => 0)
    {
      options := new byte[OPTIONS_SIZE](_ => 0);
      file := new byte[FILE_SIZE](_ => 0);
      sname := new byte[SNAME_SIZE](_ => 0);
      new;
      options[0] := DHCP_END;
    }

    /** udhcp_get_option; the pointer it returns is a field and an offset. */
    method GetOption(code: int) returns (r: Option<(Field, nat)>)
      requires Valid()
      ensures match First(Options(Value()), code)
        case None => r == None
        case Some(x) => r == Some((x.field, DataOffset(x)))
    {
      hide Options, From, Parse, First;
      ghost var p, goal := Value(), First(Options(Value()), code);
      var field, i: nat, rem, ov := OptionsField, 0, options.Length, NoOverload;
      StartOfOptions(p);
      while true
        invariant rem >= 0 ==> rem == Buffer(field).Length - i && goal == First(From(p, field, i, ov), code)
        invariant rem < 0 ==> goal == None
        decreases Unseen(ov), rem
      {
        if rem <= 0 {
          EndOfField(p, field, i, ov, code);
          return None;
        }
        var buffer := Buffer(field);
        assert p.Bytes(field) == buffer[..];
        LookupStep(p, field, i, ov, code);
        if buffer[i] == DHCP_PADDING {
          rem := rem - 1;
          i := i + 1;
          continue;
        }
        if buffer[i] == DHCP_END {
          if ov.file && !ov.fileSeen {
            ov := ov.(fileSeen := true);
            field, i, rem := FileField, 0, file.Length;
            continue;
          }
          if ov.sname && !ov.snameSeen {
            ov := ov.(snameSeen := true);
            field, i, rem := SnameField, 0, sname.Length;
            continue;
          }
          break;
        }
        // In the last place of a field the length is read one byte too far, but then
        // any length is too much.
        var len: nat := 2 + (if i + 1 < buffer.Length then buffer[i + 1] as int else 0);
        rem := rem - len;
        if rem < 0 {
          continue;
        }
        if buffer[i] == code {
          return Some((field, i + 2));
        }
        if buffer[i] == DHCP_OPTION_OVERLOAD {
          var b := if i + 2 < buffer.Length then buffer[i + 2] else 0;
          ov := ov.(file := ov.file || b % 2 == 1, sname := ov.sname || (b / 2) % 2 == 1);
        }
        i := i + len;
      }
      return None;
    }

    /** udhcp_end_option: no bounds checks, so the end mark must be there. */
    method EndOption() returns (i: nat)
      requires Valid() && Terminated(options[..])
      ensures i == EndOf(options[..])
    {
      i := 0;
      while options[i] != DHCP_END
        invariant i < options.Length && Parse(options[..], i).ending == Parse(options[..], 0).ending
        decreases options.Length - i
      {
        if options[i] != DHCP_PADDING {
          i := i + (options[i + 1] as int + 1);
        }
        i := i + 1;
      }
    }

    /** udhcp_add_binary_option. */
    method AddBinaryOption(addopt: seq<byte>)
      requires Valid() && Terminated(options[..]) && IsOption(addopt)
      modifies options
      ensures options[..] == Added(old(options[..]), addopt)
    {
      var end := EndOption();
      var len: nat := 2 + addopt[1] as int;
      if end + len + 1 >= OPTIONS_SIZE {
        return;
      }
      ghost var f := options[..];
      forall k | 0 <= k < len {
        options[end + k] := addopt[k];
      }
      options[end + len] := DHCP_END;
      assert options[..] == Appended(f, addopt[0], DataOf(addopt));
    }

    /** udhcp_add_simple_option.  The local buffer has room for four bytes of data; the
        data of a longer option goes on with the bytes that lie behind the buffer. */
    method AddSimpleOption(code: byte, data: nat, behind: seq<byte>)
      requires Valid() && Terminated(options[..])
      requires SimpleLength(code, SIMPLE_LENGTHS).Some? ==> SimpleLength(code, SIMPLE_LENGTHS).value <= 4 + |behind|
      modifies options
      ensures options[..] == match SimpleLength(code, SIMPLE_LENGTHS)
        case None => old(options[..])
        case Some(n) => Added(old(options[..]), OptionBytes(code, (LittleEndian(data) + behind)[..n]))
    {
      hide SimpleLength;
      var length := LengthIn(SIMPLE_LENGTHS, code);
      if length.Some? {
        var len := length.value;
        var value := LittleEndian(data) + behind;
        var option := [code, len] + value;
        assert DataOf(option) == value[..len];
        assert DataOf(OptionBytes(code, value[..len])) == value[..len];
        AddBinaryOption(option);
      }
    }
  }

  /** The search for a code in a table of lengths. */
  method LengthIn(table: seq<(byte, byte)>, code: byte) returns (length: Option<byte>)
    ensures length == SimpleLength(code, table)
  {
    for k := 0 to |table|
      invariant SimpleLength(code, table[k..]) == SimpleLength(code, table)
    {
      if table[k].0 == code {
        return Some(table[k].1);
      }
    }
    return None;
  }

  /** A code, a length and at least that many bytes of data. */
  predicate IsOption(o: seq<byte>) {
    |o| >= 2 && |o| >= 2 + o[1] as int
  }

  function DataOf(o: seq<byte>): seq<byte>
    requires IsOption(o)
  {
    o[2..2 + o[1] as int]
  }

  /** An option is added if it fits, and otherwise dropped. */
  function Added(f: seq<byte>, o: seq<byte>): (g: seq<byte>)
    requires IsOption(o)
    ensures |g| == |f|
  {
    if Fits(f, DataOf(o)) then Appended(f, o[0], DataOf(o)) else f
  }

  /** In the options field of 308 bytes an option is added, and read back, iff its data
      end by place 306: the end mark and one more byte stay free. */
  lemma AddedIff(f: seq<byte>, o: seq<byte>)
    requires |f| == 308 && Terminated(f) && IsOption(o) && o[0] != DHCP_PADDING && o[0] != DHCP_END
    ensures var end, n := EndOf(f), o[1];
      if end + 2 + n <= 306 then
        && Terminated(Added(f, o)) && EndOf(Added(f, o)) == end + 2 + n
        && Entries(Added(f, o)) == Entries(f) + [Entry(end, o[0], o[2..2 + n])]
      else Added(f, o) == f
  {
    hide Appended, Parse;
    if Fits(f, DataOf(o)) {
      AppendParses(f, o[0], DataOf(o));
    }
  }

  /** Where the data of an option found start in its field. */
  function DataOffset(x: Found): nat {
    x.entry.pos + 2
  }

  /** Two places before the data is the code, one before it their length, and they end
      inside the field. */
  lemma DataAtOffset(p: Fields, code: int)
    ensures match First(Options(p), code)
      case None => true
      case Some(x) =>
        var f, ofs := p.Bytes(x.field), DataOffset(x);
        2 <= ofs <= |f| && f[ofs - 2] == code && ofs + f[ofs - 1] <= |f| && x.entry.data == f[ofs..ofs + f[ofs - 1]]
  {
    FromInside(p, OptionsField, 0, NoOverload);
    hide From, First;
  }

  lemma StartOfOptions(p: Fields)
    ensures Options(p) == From(p, OptionsField, 0, NoOverload)
  {
  }

  lemma EndOfField(p: Fields, field: Field, i: nat, ov: Overload, code: int)
    ensures i >= |p.Bytes(field)| ==> First(From(p, field, i, ov), code) == None
  {
    FromStep(p, field, i, ov);
    hide From;
  }

  /** One step of a lookup. */
  lemma LookupStep(p: Fields, field: Field, i: nat, ov: Overload, code: int)
    requires i < |p.Bytes(field)|
    ensures var f, r := p.Bytes(field), First(From(p, field, i, ov), code);
      if f[i] == DHCP_PADDING then r == First(From(p, field, i + 1, ov), code)
      else if f[i] == DHCP_END then
        if ov.file && !ov.fileSeen then r == First(From(p, FileField, 0, ov.(fileSeen := true)), code)
        else if ov.sname && !ov.snameSeen then r == First(From(p, SnameField, 0, ov.(snameSeen := true)), code)
        else r == None
      else if !FitsAt(f, i) then r == None
      else if f[i] == code then r == Some(Found(field, EntryAt(f, i)))
      else r == First(From(p, field, i + 2 + f[i + 1], Note(ov, f, EntryAt(f, i))), code)
  {
    FromStep(p, field, i, ov);
    hide From;
    var f := p.Bytes(field);
    if f[i] != DHCP_PADDING && f[i] != DHCP_END && FitsAt(f, i) {
      var rest := From(p, field, i + 2 + f[i + 1], Note(ov, f, EntryAt(f, i)));
      assert ([Found(field, EntryAt(f, i))] + rest)[1..] == rest;
    }
  }
}
