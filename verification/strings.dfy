/** Python's `sep.join(pieces)` and where each piece lands in the result. */
module Strings {

  /** The pieces in order, with one copy of `sep` between each pair of neighbours. */
  function Join(pieces: seq<string>, sep: string): string
    decreases |pieces|
  {
    if |pieces| == 0 then []
    else if |pieces| == 1 then pieces[0]
    else pieces[0] + sep + Join(pieces[1..], sep)
  }

  /** Sum of the lengths of the pieces. */
  function TotalLength(pieces: seq<string>): nat
    decreases |pieces|
  {
    if |pieces| == 0 then 0 else |pieces[0]| + TotalLength(pieces[1..])
  }

  /** Index at which piece `i` begins in `Join(pieces, sep)`: every earlier piece
      and one separator after each. */
  function Offset(pieces: seq<string>, sep: string, i: nat): nat
    requires i <= |pieces|
    decreases i
  {
    if i == 0 then 0 else |pieces[0]| + |sep| + Offset(pieces[1..], sep, i - 1)
  }

  /** The joined text is the pieces plus one separator per gap, and nothing else. */
  lemma {:induction false} JoinLength(pieces: seq<string>, sep: string)
    requires |pieces| > 0
    ensures |Join(pieces, sep)| == TotalLength(pieces) + (|pieces| - 1) * |sep|
    decreases |pieces|
  {
    if |pieces| > 1 {
      JoinLength(pieces[1..], sep);
      assert (|pieces| - 1) * |sep| == |sep| + (|pieces| - 2) * |sep|;
    }
  }

  /** Consecutive offsets differ by the length of the piece and one separator. */
  lemma {:induction false} OffsetStep(pieces: seq<string>, sep: string, i: nat)
    requires i < |pieces|
    ensures Offset(pieces, sep, i + 1) == Offset(pieces, sep, i) + |pieces[i]| + |sep|
    decreases i
  {
    if i > 0 {
      OffsetStep(pieces[1..], sep, i - 1);
      assert pieces[1..][i - 1] == pieces[i];
    }
  }

  /** Piece `i` occupies `r` from `Offset(pieces, sep, i)` on, and when another
      piece follows, `sep` comes right after it. */
  predicate PieceAt(r: string, pieces: seq<string>, sep: string, i: nat)
    requires i < |pieces|
  {
    var o := Offset(pieces, sep, i);
    var e := o + |pieces[i]|;
    && e <= |r| && r[o..e] == pieces[i]
    && (i + 1 < |pieces| ==> e + |sep| <= |r| && r[e..e + |sep|] == sep)
  }

  /** The first piece starts the joined text, followed by `sep` when more
      pieces come. */
  lemma JoinFirstPiece(pieces: seq<string>, sep: string)
    requires |pieces| > 0
    ensures PieceAt(Join(pieces, sep), pieces, sep, 0)
  {
    var j := Join(pieces, sep);
    if |pieces| > 1 {
      assert j == pieces[0] + sep + Join(pieces[1..], sep);
      assert j[..|pieces[0]|] == pieces[0];
      assert j[|pieces[0]|..|pieces[0]| + |sep|] == sep;
    }
  }

  /** A piece laid out in the join of the later pieces is laid out in the
      join of all of them, shifted by the first piece and one separator. */
  lemma JoinShiftPiece(pieces: seq<string>, sep: string, i: nat)
    requires 0 < i < |pieces|
    requires PieceAt(Join(pieces[1..], sep), pieces[1..], sep, i - 1)
    ensures PieceAt(Join(pieces, sep), pieces, sep, i)
  {
    var j := Join(pieces, sep);
    var rest := Join(pieces[1..], sep);
    var h := |pieces[0]| + |sep|;
    assert j == pieces[0] + sep + rest;
    assert pieces[1..][i - 1] == pieces[i];
    var o := Offset(pieces[1..], sep, i - 1);
    assert Offset(pieces, sep, i) == h + o;
    var e := o + |pieces[i]|;
    assert j[h + o..h + e] == rest[o..e];
    if i + 1 < |pieces| {
      assert j[h + e..h + e + |sep|] == rest[e..e + |sep|];
    }
  }

  /** Piece `i` sits unchanged at `Offset(pieces, sep, i)`, and exactly `sep`
      fills the gap up to the start of piece `i + 1`: the pieces appear in
      their original order. */
  lemma {:induction false} JoinPiece(pieces: seq<string>, sep: string, i: nat)
    requires i < |pieces|
    ensures PieceAt(Join(pieces, sep), pieces, sep, i)
    decreases i
  {
    if i == 0 {
      JoinFirstPiece(pieces, sep);
    } else {
      JoinPiece(pieces[1..], sep, i - 1);
      JoinShiftPiece(pieces, sep, i);
    }
  }

  /** Joining with one more piece at the end appends one separator and that piece. */
  lemma {:induction false} JoinSnoc(pieces: seq<string>, last: string, sep: string)
    requires |pieces| > 0
    ensures Join(pieces + [last], sep) == Join(pieces, sep) + sep + last
    decreases |pieces|
  {
    var all := pieces + [last];
    if |pieces| == 1 {
      assert all[1..] == [last];
    } else {
      assert all[1..] == pieces[1..] + [last];
      JoinSnoc(pieces[1..], last, sep);
    }
  }

  /** `r` consists of the pieces in order with one `sep` between neighbours:
      every piece at its offset, and no characters beyond those. */
  predicate LaidOut(r: string, pieces: seq<string>, sep: string)
  {
    && (|pieces| == 0 ==> r == [])
    && (|pieces| > 0 ==> |r| == TotalLength(pieces) + (|pieces| - 1) * |sep|)
    && forall i :: 0 <= i < |pieces| ==> PieceAt(r, pieces, sep, i)
  }

  /** `Join` lays its pieces out in order, separated by exactly one `sep`. */
  lemma JoinLaysOut(pieces: seq<string>, sep: string)
    ensures LaidOut(Join(pieces, sep), pieces, sep)
  {
    if |pieces| > 0 {
      JoinLength(pieces, sep);
    }
    forall i | 0 <= i < |pieces|
      ensures PieceAt(Join(pieces, sep), pieces, sep, i)
    {
      JoinPiece(pieces, sep, i);
    }
  }
}
