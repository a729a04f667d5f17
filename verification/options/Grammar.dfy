/** The format of an options field (RFC 2132, section 2): padding bytes and options, code
    before length before data, and then the end mark.  The walk reads exactly this. */
module OptionGrammar {
  import opened Wrappers
  import opened OptionSpec

  datatype Piece = Pad | Opt(code: byte, data: seq<byte>)

  predicate WellFormed(ps: seq<Piece>) {
    forall k | 0 <= k < |ps| :: GoodPiece(ps[k])
  }

  predicate GoodPiece(p: Piece) {
    p.Opt? ==> p.code != 0 && p.code != 255 && |p.data| < 256
  }

  function OneBytes(p: Piece): (b: seq<byte>)
    requires GoodPiece(p)
    ensures b != []
  {
    match p
    case Pad => [0]
    case Opt(code, data) => [code, |data|] + data
  }

  function BytesOf(ps: seq<Piece>): seq<byte>
    requires WellFormed(ps)
  {
    if ps == [] then [] else OneBytes(ps[0]) + BytesOf(ps[1..])
  }

  /** The option that a piece at place `i` is, if it is one. */
  function OneListed(p: Piece, i: nat): seq<Entry> {
    match p
    case Pad => []
    case Opt(code, data) => [Entry(i, code, data)]
  }

  /** The options among the pieces, with their places when the first one is at `i`. */
  function Listed(ps: seq<Piece>, i: nat): seq<Entry>
    requires WellFormed(ps)
  {
    if ps == [] then [] else OneListed(ps[0], i) + Listed(ps[1..], i + |OneBytes(ps[0])|)
  }

  /** No option stands whole at the start of `tail`, and neither padding nor an end mark:
      the field is over, or its last option is cut off. */
  predicate CutOff(tail: seq<byte>) {
    tail == [] || (tail[0] != 0 && tail[0] != 255 && (|tail| == 1 || 2 + tail[1] as int > |tail|))
  }

  /** The pieces of `f` from place `i` on, whole ones only. */
  function Pieces(f: seq<byte>, i: nat): (ps: seq<Piece>)
    ensures WellFormed(ps)
    decreases |f| - i
  {
    if i >= |f| || f[i] == 255 then []
    else if f[i] == 0 then [Pad] + Pieces(f, i + 1)
    else if !FitsAt(f, i) then []
    else [Opt(f[i], f[i + 2..i + 2 + f[i + 1]])] + Pieces(f, i + 2 + f[i + 1])
  }

  lemma OptAt(f: seq<byte>, i: nat, code: byte, data: seq<byte>, rest: seq<byte>)
    requires |data| < 256 && i <= |f| && f[i..] == [code, |data|] + data + rest
    ensures i + 2 + |data| <= |f| && f[i + 2 + |data|..] == rest
    ensures f[i] == code && f[i + 1] == |data| && FitsAt(f, i) && EntryAt(f, i) == Entry(i, code, data)
  {
    var g := f[i..];
    assert g[0] == f[i] && g[1] == f[i + 1] && g[2..2 + |data|] == f[i + 2..i + 2 + |data|];
    assert g[2 + |data|..] == f[i + 2 + |data|..];
  }

  lemma PadAt(f: seq<byte>, i: nat, rest: seq<byte>)
    requires i <= |f| && f[i..] == [0] + rest
    ensures i + 1 <= |f| && f[i + 1..] == rest && f[i] == 0
  {
    assert f[i] == f[i..][0] && f[i + 1..] == f[i..][1..];
  }

  lemma PadParses(f: seq<byte>, i: nat)
    requires i < |f| && f[i] == 0
    ensures Parse(f, i) == Parse(f, i + 1)
  {
  }

  lemma OptParses(f: seq<byte>, i: nat)
    requires i < |f| && f[i] != 0 && f[i] != 255 && FitsAt(f, i)
    ensures var rest := Parse(f, i + 2 + f[i + 1]);
      Parse(f, i).entries == [EntryAt(f, i)] + rest.entries && Parse(f, i).ending == rest.ending
  {
  }

  /** A piece is where the walk finds it. */
  lemma PieceParses(f: seq<byte>, i: nat, p: Piece, rest: seq<byte>)
    requires GoodPiece(p) && i <= |f| && f[i..] == OneBytes(p) + rest
    ensures var n := |OneBytes(p)|;
      && i + n <= |f| && f[i + n..] == rest
      && Parse(f, i).entries == OneListed(p, i) + Parse(f, i + n).entries
      && Parse(f, i).ending == Parse(f, i + n).ending
  {
    hide Parse, FitsAt, EntryAt;
    match p
    case Pad =>
      PadAt(f, i, rest);
      PadParses(f, i);
      assert [] + Parse(f, i + 1).entries == Parse(f, i + 1).entries;
    case Opt(code, data) =>
      OptAt(f, i, code, data, rest);
      OptParses(f, i);
  }

  lemma {:induction false} PiecesParse(f: seq<byte>, i: nat, ps: seq<Piece>, tail: seq<byte>)
    requires WellFormed(ps) && i <= |f| && f[i..] == BytesOf(ps) + tail
    ensures Parse(f, i).entries == Listed(ps, i) + Parse(f, i + |BytesOf(ps)|).entries
    ensures Parse(f, i).ending == Parse(f, i + |BytesOf(ps)|).ending
    decreases |ps|
  {
    hide OneBytes, OneListed, Parse, GoodPiece;
    if ps != [] {
      assert GoodPiece(ps[0]);
      var one, rest := OneBytes(ps[0]), BytesOf(ps[1..]);
      Regroup(one, rest, tail);
      PieceParses(f, i, ps[0], rest + tail);
      PiecesParse(f, i + |one|, ps[1..], tail);
      Regroup(OneListed(ps[0], i), Listed(ps[1..], i + |one|), Parse(f, i + |one| + |rest|).entries);
    }
  }

  /** Whatever follows the end mark, the walk lists exactly the options written, in order
      and at their places, and ends at the mark. */
  lemma WalkReadsPieces(ps: seq<Piece>, rest: seq<byte>)
    requires WellFormed(ps)
    ensures Parse(BytesOf(ps) + [255] + rest, 0) == Walk(Listed(ps, 0), EndMark(|BytesOf(ps)|))
  {
    var f, n := BytesOf(ps) + [255] + rest, |BytesOf(ps)|;
    assert f[0..] == BytesOf(ps) + ([255] + rest);
    PiecesParse(f, 0, ps, [255] + rest);
    assert Parse(f, n) == Walk([], EndMark(n));
  }

  /** A field without an end mark, or cut off before it, is told as such. */
  lemma WalkReadsCutOff(ps: seq<Piece>, tail: seq<byte>)
    requires WellFormed(ps) && CutOff(tail)
    ensures Parse(BytesOf(ps) + tail, 0) == Walk(Listed(ps, 0), Malformed)
  {
    var f, n := BytesOf(ps) + tail, |BytesOf(ps)|;
    assert f[0..] == f;
    PiecesParse(f, 0, ps, tail);
    assert f[n..] == tail;
    assert tail != [] ==> f[n] == tail[0] && (|tail| > 1 ==> f[n + 1] == tail[1]);
    assert Parse(f, n) == Walk([], Malformed);
  }

  /** What stands behind the pieces: an end mark, or an option cut off or nothing. */
  predicate Stops(tail: seq<byte>) {
    (tail != [] && tail[0] == 255) || CutOff(tail)
  }

  /** The piece at place `i`, if a whole one stands there. */
  lemma PieceAt(f: seq<byte>, i: nat) returns (p: Piece)
    requires i < |f| && f[i] != 255 && (f[i] == 0 || FitsAt(f, i))
    ensures GoodPiece(p) && i + |OneBytes(p)| <= |f| && f[i..i + |OneBytes(p)|] == OneBytes(p)
    ensures Pieces(f, i) == [p] + Pieces(f, i + |OneBytes(p)|)
  {
    p := if f[i] == 0 then Pad else Opt(f[i], f[i + 2..i + 2 + f[i + 1]]);
  }

  lemma StopsAt(f: seq<byte>, i: nat)
    requires i <= |f| && (i < |f| ==> f[i] == 255 || (f[i] != 0 && !FitsAt(f, i)))
    ensures Stops(f[i..]) && Pieces(f, i) == []
  {
    var tail := f[i..];
    assert i < |f| ==> tail[0] == f[i];
    assert i + 1 < |f| ==> tail[1] == f[i + 1];
  }

  /** Every field is of one of the two forms. */
  lemma {:induction false} PiecesOf(f: seq<byte>, i: nat) returns (tail: seq<byte>)
    requires i <= |f|
    ensures f[i..] == BytesOf(Pieces(f, i)) + tail && Stops(tail)
    decreases |f| - i
  {
    hide Pieces, OneBytes, Stops, FitsAt;
    if i < |f| && f[i] != 255 && (f[i] == 0 || FitsAt(f, i)) {
      var p := PieceAt(f, i);
      var n := |OneBytes(p)|;
      tail := PiecesOf(f, i + n);
      var ps := Pieces(f, i + n);
      assert ([p] + ps)[1..] == ps;
      Regroup(OneBytes(p), BytesOf(ps), tail);
      Cut(f, i, n);
    } else {
      tail := f[i..];
      StopsAt(f, i);
      assert [] + tail == tail;
    }
  }

  lemma Cut(f: seq<byte>, i: nat, n: nat)
    requires i + n <= |f|
    ensures f[i..] == f[i..i + n] + f[i + n..]
  {
  }
}
