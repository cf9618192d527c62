/** The encoding of chess positions as logic facts and back, the position
    reader over games, and the construction of the tactic query text. A
    board is abstract: pieces by square, the side to move and four castling
    flags; FEN parsing and move generation belong to the chess library. */
module ChessUtil {
  import opened Wrappers

  datatype Color = White | Black

  datatype PieceType = Pawn | Knight | Bishop | Rook | Queen | King

  datatype Piece = Piece(color: Color, kind: PieceType)

  /** Squares are numbered a1 = 0, b1 = 1, ..., h1 = 7, a2 = 8, ..., h8 = 63. */
  type Square = i: int | 0 <= i < 64

  function FileOf(sq: Square): int { sq % 8 }

  function RankOf(sq: Square): int { sq / 8 }

  /** The four castling rights, one per corner rook square: H1, A1, H8, A8. */
  datatype Castling = Castling(whiteKingside: bool, whiteQueenside: bool,
                               blackKingside: bool, blackQueenside: bool)

  datatype Board = Board(pieces: map<Square, Piece>, turn: Color, castling: Castling)

  /** An empty board: no pieces, white to move, no castling rights. */
  const EmptyBoard: Board := Board(map[], White, Castling(false, false, false, false))

  // ---------------------------------------------------------------------
  // Names

  /** ASCII lower-casing. */
  function LowerChar(ch: char): char
  {
    if 'A' <= ch <= 'Z' then (ch as int + 32) as char else ch
  }

  function Lower(s: string): (r: string)
    ensures |r| == |s|
    ensures forall i :: 0 <= i < |s| ==> r[i] == LowerChar(s[i])
  {
    seq(|s|, i requires 0 <= i < |s| => LowerChar(s[i]))
  }

  /** A string without upper-case letters is its own lower-case form. */
  lemma LowerKeepsLowercase(s: string)
    requires forall i :: 0 <= i < |s| ==> !('A' <= s[i] <= 'Z')
    ensures Lower(s) == s
  {
  }

  function SideToStr(side: Color): (r: string)
    ensures StrToSide(r) == side
    ensures r == "white" || r == "black"
  {
    LowerKeepsLowercase("white");
    LowerKeepsLowercase("black");
    if side == White then "white" else "black"
  }

  /** Case-insensitive; every string other than "white" is black. */
  function StrToSide(s: string): (side: Color)
    ensures side == White <==> Lower(s) == "white"
  {
    if Lower(s) == "white" then White else Black
  }

  lemma SideRoundTrip(side: Color)
    ensures StrToSide(SideToStr(side)) == side
    ensures SideToStr(StrToSide(SideToStr(side))) == SideToStr(side)
  {
    LowerKeepsLowercase("white");
    LowerKeepsLowercase("black");
  }

  /** Strings equal up to case name the same side. */
  lemma StrToSideIgnoresCase(s: string, t: string)
    requires Lower(s) == Lower(t)
    ensures StrToSide(s) == StrToSide(t)
  {
  }

  /** The library's lower-case piece names. */
  function PieceName(kind: PieceType): string
  {
    match kind
    case Pawn => "pawn"
    case Knight => "knight"
    case Bishop => "bishop"
    case Rook => "rook"
    case Queen => "queen"
    case King => "king"
  }

  /** Case-insensitive piece-name parser; a name that is none of the six has
      no result (the source raises). */
  function ParsePiece(name: string): (r: Option<PieceType>)
    ensures forall kind :: r == Some(kind) <==> Lower(name) == PieceName(kind)
    ensures r == None <==> forall kind :: Lower(name) != PieceName(kind)
  {
    var n := Lower(name);
    if n == "pawn" then Some(Pawn)
    else if n == "knight" then Some(Knight)
    else if n == "bishop" then Some(Bishop)
    else if n == "rook" then Some(Rook)
    else if n == "queen" then Some(Queen)
    else if n == "king" then Some(King)
    else None
  }

  lemma ParsePieceRoundTrip(kind: PieceType)
    ensures ParsePiece(PieceName(kind)) == Some(kind)
  {
    LowerKeepsLowercase(PieceName(kind));
  }

  // ---------------------------------------------------------------------
  // Facts

  /** An argument of a fact: an atom or an integer. */
  datatype Arg = Atom(text: string) | Num(value: int)

  datatype Fact = Fact(name: string, args: seq<Arg>)

  /** contents(colour, piece, col, row) with col and row counted from 1. */
  function ContentsFact(sq: Square, p: Piece): Fact
  {
    Fact("contents", [Atom(SideToStr(p.color)), Atom(PieceName(p.kind)), Num(FileOf(sq) + 1), Num(RankOf(sq) + 1)])
  }

  /** The square a contents fact names, or -1 when its coordinates are not
      two integers in 1..8. */
  function SquareOfFact(f: Fact): int
  {
    if |f.args| == 4 && f.args[2].Num? && f.args[3].Num?
       && 1 <= f.args[2].value <= 8 && 1 <= f.args[3].value <= 8
    then (f.args[3].value - 1) * 8 + (f.args[2].value - 1)
    else -1
  }

  lemma SquareOfContentsFact(sq: Square, p: Piece)
    ensures SquareOfFact(ContentsFact(sq, p)) == sq
  {
  }

  /** The contents facts of the occupied squares from `from` on, one per
      square in ascending order. */
  function ContentsFrom(pieces: map<Square, Piece>, from: nat): (r: seq<Fact>)
    requires from <= 64
    ensures |r| <= 64 - from
    decreases 64 - from
  {
    if from == 64 then []
    else
      var sq: Square := from;
      (if sq in pieces then [ContentsFact(sq, pieces[sq])] else []) + ContentsFrom(pieces, from + 1)
  }

  /** Every fact of r is the contents fact of an occupied square from
      `from` on, with the piece on it. */
  ghost predicate ListsOccupied(r: seq<Fact>, pieces: map<Square, Piece>, from: int)
  {
    forall i :: 0 <= i < |r| ==>
      var sq := SquareOfFact(r[i]);
      from <= sq < 64 && sq in pieces && r[i] == ContentsFact(sq, pieces[sq])
  }

  /** The squares of the facts strictly ascend. */
  ghost predicate Ascending(r: seq<Fact>)
  {
    forall i, j :: 0 <= i < j < |r| ==> SquareOfFact(r[i]) < SquareOfFact(r[j])
  }

  /** Every occupied square from `from` on has its contents fact in r. */
  ghost predicate CoversOccupied(r: seq<Fact>, pieces: map<Square, Piece>, from: int)
  {
    forall sq: Square :: from <= sq && sq in pieces ==> ContentsFact(sq, pieces[sq]) in r
  }

  /** Putting the fact of an occupied square in front of the facts of the
      squares after it keeps all three properties. */
  lemma OccupiedCons(pieces: map<Square, Piece>, sq: Square, rest: seq<Fact>)
    requires sq in pieces
    requires ListsOccupied(rest, pieces, sq + 1) && Ascending(rest) && CoversOccupied(rest, pieces, sq + 1)
    ensures var r := [ContentsFact(sq, pieces[sq])] + rest;
      ListsOccupied(r, pieces, sq) && Ascending(r) && CoversOccupied(r, pieces, sq)
  {
    var f := ContentsFact(sq, pieces[sq]);
    var r := [f] + rest;
    SquareOfContentsFact(sq, pieces[sq]);
    assert forall i :: 0 < i < |r| ==> r[i] == rest[i - 1];
    assert Ascending(r) by {
      forall i, j | 0 <= i < j < |r|
        ensures SquareOfFact(r[i]) < SquareOfFact(r[j])
      {
        assert r[j] == rest[j - 1];
      }
    }
  }

  /** An empty square adds no fact and keeps all three properties. */
  lemma OccupiedSkip(pieces: map<Square, Piece>, sq: Square, rest: seq<Fact>)
    requires sq !in pieces
    requires ListsOccupied(rest, pieces, sq + 1) && CoversOccupied(rest, pieces, sq + 1)
    ensures ListsOccupied(rest, pieces, sq) && CoversOccupied(rest, pieces, sq)
  {
  }

  /** The contents facts list exactly the occupied squares from `from` on,
      once each, in ascending order, with their pieces. */
  lemma {:induction false} ContentsFromOrdered(pieces: map<Square, Piece>, from: nat)
    requires from <= 64
    ensures ListsOccupied(ContentsFrom(pieces, from), pieces, from)
    ensures Ascending(ContentsFrom(pieces, from))
    ensures CoversOccupied(ContentsFrom(pieces, from), pieces, from)
    decreases 64 - from
  {
    if from < 64 {
      ContentsFromOrdered(pieces, from + 1);
      var sq: Square := from;
      var rest := ContentsFrom(pieces, from + 1);
      if sq in pieces {
        assert ContentsFrom(pieces, from) == [ContentsFact(sq, pieces[sq])] + rest;
        OccupiedCons(pieces, sq, rest);
      } else {
        assert ContentsFrom(pieces, from) == rest;
        OccupiedSkip(pieces, sq, rest);
      }
    }
  }

  function CastlingFact(name: string, side: Color, present: bool): (r: seq<Fact>)
    ensures |r| <= 1
  {
    if present then [Fact(name, [Atom(SideToStr(side))])] else []
  }

  /** Castling facts in the order white kingside, white queenside, black
      kingside, black queenside. */
  function CastlingFacts(c: Castling): (r: seq<Fact>)
    ensures |r| <= 4
  {
    CastlingFact("kingside_castle", White, c.whiteKingside)
    + CastlingFact("queenside_castle", White, c.whiteQueenside)
    + CastlingFact("kingside_castle", Black, c.blackKingside)
    + CastlingFact("queenside_castle", Black, c.blackQueenside)
  }

  /** The facts of a position: the contents facts, then one turn fact, then
      the castling facts. */
  function BoardFacts(b: Board): (r: seq<Fact>)
    ensures 1 <= |r| <= 64 + 1 + 4
  {
    ContentsFrom(b.pieces, 0) + [Fact("turn", [Atom(SideToStr(b.turn))])] + CastlingFacts(b.castling)
  }

  /** Every fact is a castling right. */
  ghost predicate CastlingNamed(fs: seq<Fact>)
  {
    forall i :: 0 <= i < |fs| ==> fs[i].name in {"kingside_castle", "queenside_castle"}
  }

  /** The facts of a position list every occupied square once, in
      ascending square order, with its piece; then exactly one turn fact;
      then only castling facts, at most four. */
  lemma BoardFactsLayout(b: Board)
    ensures var r := BoardFacts(b);
      var n := |ContentsFrom(b.pieces, 0)|;
      && n < |r| <= n + 5
      && ListsOccupied(r[..n], b.pieces, 0)
      && Ascending(r[..n])
      && CoversOccupied(r[..n], b.pieces, 0)
      && r[n] == Fact("turn", [Atom(SideToStr(b.turn))])
      && CastlingNamed(r[n + 1..])
      && CastlingRanked(r[n + 1..], b.castling)
  {
    var contents := ContentsFrom(b.pieces, 0);
    ContentsFromOrdered(b.pieces, 0);
    CastlingFactNames(b.castling);
    CastlingFactsRanked(b.castling);
    ThreeParts(contents, Fact("turn", [Atom(SideToStr(b.turn))]), CastlingFacts(b.castling));
  }

  /** A sequence built from three parts splits back into them. */
  lemma ThreeParts(front: seq<Fact>, middle: Fact, back: seq<Fact>)
    ensures var r := front + [middle] + back;
      && |r| == |front| + 1 + |back|
      && r[..|front|] == front
      && r[|front|] == middle
      && r[|front| + 1..] == back
  {
  }

  lemma CastlingFactNames(c: Castling)
    ensures |CastlingFacts(c)| <= 4
    ensures CastlingNamed(CastlingFacts(c))
  {
  }

  /** Where a castling fact stands in the emitted order: 0 white kingside,
      1 white queenside, 2 black kingside, 3 black queenside; 4 for any
      other fact. */
  function CastlingRank(f: Fact): nat
  {
    if f == Fact("kingside_castle", [Atom("white")]) then 0
    else if f == Fact("queenside_castle", [Atom("white")]) then 1
    else if f == Fact("kingside_castle", [Atom("black")]) then 2
    else if f == Fact("queenside_castle", [Atom("black")]) then 3
    else 4
  }

  /** The castling flag of rank k. */
  function RightOfRank(c: Castling, k: nat): bool
  {
    if k == 0 then c.whiteKingside
    else if k == 1 then c.whiteQueenside
    else if k == 2 then c.blackKingside
    else k == 3 && c.blackQueenside
  }

  /** The facts are castling rights of rank below `bound`, in strictly
      increasing rank, and every rank below `bound` appears exactly when
      its flag is set. */
  ghost predicate RankedBelow(fs: seq<Fact>, c: Castling, bound: nat)
  {
    && (forall i :: 0 <= i < |fs| ==> CastlingRank(fs[i]) < bound)
    && (forall i, j :: 0 <= i < j < |fs| ==> CastlingRank(fs[i]) < CastlingRank(fs[j]))
    && (forall k :: 0 <= k < bound ==>
          (RightOfRank(c, k) <==> exists i :: 0 <= i < |fs| && CastlingRank(fs[i]) == k))
  }

  /** The castling facts list the set rights in rank order, one fact each. */
  ghost predicate CastlingRanked(fs: seq<Fact>, c: Castling)
  {
    RankedBelow(fs, c, 4)
  }

  /** Appending the fact of the next rank, when its flag is set, extends
      the ranking by one. */
  lemma RankedAppend(fs: seq<Fact>, c: Castling, k: nat, name: string, side: Color)
    requires k < 4 && RankedBelow(fs, c, k)
    requires CastlingRank(Fact(name, [Atom(SideToStr(side))])) == k
    ensures RankedBelow(fs + CastlingFact(name, side, RightOfRank(c, k)), c, k + 1)
  {
    var tail := CastlingFact(name, side, RightOfRank(c, k));
    var r := fs + tail;
    assert forall i :: 0 <= i < |fs| ==> r[i] == fs[i];
    forall j | 0 <= j < k + 1
      ensures RightOfRank(c, j) <==> exists i :: 0 <= i < |r| && CastlingRank(r[i]) == j
    {
      if j < k {
        if exists i :: 0 <= i < |r| && CastlingRank(r[i]) == j {
          var i :| 0 <= i < |r| && CastlingRank(r[i]) == j;
          assert i < |fs|;
        }
      } else if RightOfRank(c, k) {
        assert CastlingRank(r[|fs|]) == k;
      }
    }
  }

  /** The name and side of the castling fact of rank k. */
  function NameOfRank(k: nat): string
  {
    if k % 2 == 0 then "kingside_castle" else "queenside_castle"
  }

  function SideOfRank(k: nat): Color
  {
    if k < 2 then White else Black
  }

  /** The castling facts of the ranks below k, built one rank at a time. */
  function CastlingUpTo(c: Castling, k: nat): seq<Fact>
  {
    if k == 0 then []
    else CastlingUpTo(c, k - 1) + CastlingFact(NameOfRank(k - 1), SideOfRank(k - 1), RightOfRank(c, k - 1))
  }

  lemma RankOfRankFact(k: nat)
    requires k < 4
    ensures CastlingRank(Fact(NameOfRank(k), [Atom(SideToStr(SideOfRank(k)))])) == k
  {
    assert SideToStr(White) == "white" && SideToStr(Black) == "black";
  }

  lemma {:induction false} CastlingUpToRanked(c: Castling, k: nat)
    requires k <= 4
    ensures RankedBelow(CastlingUpTo(c, k), c, k)
  {
    if k > 0 {
      CastlingUpToRanked(c, k - 1);
      RankOfRankFact(k - 1);
      RankedAppend(CastlingUpTo(c, k - 1), c, k - 1, NameOfRank(k - 1), SideOfRank(k - 1));
    }
  }

  lemma CastlingFactsUpTo(c: Castling)
    ensures CastlingFacts(c) == CastlingUpTo(c, 4)
  {
    var wk := CastlingFact("kingside_castle", White, c.whiteKingside);
    var wq := CastlingFact("queenside_castle", White, c.whiteQueenside);
    var bk := CastlingFact("kingside_castle", Black, c.blackKingside);
    var bq := CastlingFact("queenside_castle", Black, c.blackQueenside);
    assert CastlingUpTo(c, 1) == [] + wk == wk;
    assert CastlingUpTo(c, 2) == wk + wq;
    assert CastlingUpTo(c, 3) == wk + wq + bk;
    assert CastlingUpTo(c, 4) == wk + wq + bk + bq;
  }

  /** The castling facts come in the order white kingside, white
      queenside, black kingside, black queenside, one per set right. */
  lemma CastlingFactsRanked(c: Castling)
    ensures CastlingRanked(CastlingFacts(c), c)
  {
    CastlingUpToRanked(c, 4);
    CastlingFactsUpTo(c);
  }

  // ---------------------------------------------------------------------
  // Text

  function DigitChar(d: int): char
    requires 0 <= d < 10
  {
    (d + '0' as int) as char
  }

  /** The decimal numeral of n, without leading zeros. */
  function NatToString(n: nat): (s: string)
    ensures |s| >= 1
    ensures forall i :: 0 <= i < |s| ==> '0' <= s[i] <= '9'
    ensures n > 0 ==> s[0] != '0'
    decreases n
  {
    if n < 10 then [DigitChar(n)] else NatToString(n / 10) + [DigitChar(n % 10)]
  }

  /** The value of a string of decimal digits, read most significant first. */
  function DigitsValue(s: string): nat
    requires AllDigits(s)
    decreases |s|
  {
    if s == [] then 0 else DigitsValue(s[..|s| - 1]) * 10 + (s[|s| - 1] as int - '0' as int)
  }

  /** Reading back the numeral of n gives n. */
  lemma {:induction false} NatToStringRoundTrip(n: nat)
    ensures DigitsValue(NatToString(n)) == n
    decreases n
  {
    var s := NatToString(n);
    if n >= 10 {
      NatToStringRoundTrip(n / 10);
      assert s[..|s| - 1] == NatToString(n / 10);
    }
  }

  /** Python's str of an integer: a minus sign before the numeral of a
      negative value. */
  function IntToString(n: int): string
  {
    if n < 0 then "-" + NatToString(-n) else NatToString(n)
  }

  predicate AllDigits(s: string)
  {
    forall i :: 0 <= i < |s| ==> '0' <= s[i] <= '9'
  }

  /** The integer an optionally signed numeral denotes. */
  function ParseInt(s: string): Option<int>
  {
    if |s| >= 2 && s[0] == '-' && AllDigits(s[1..]) then Some(-(DigitsValue(s[1..]) as int))
    else if |s| >= 1 && AllDigits(s) then Some(DigitsValue(s) as int)
    else None
  }

  /** Reading back the text of n gives n. */
  lemma IntToStringRoundTrip(n: int)
    ensures ParseInt(IntToString(n)) == Some(n)
  {
    var m: nat := if n < 0 then -n else n;
    var d := NatToString(m);
    NatToStringRoundTrip(m);
    assert AllDigits(d);
    if n < 0 {
      var s := "-" + d;
      assert s[1..] == d;
      assert ParseInt(s) == Some(-(DigitsValue(d) as int));
    } else {
      assert d[0] != '-';
      assert ParseInt(d) == Some(DigitsValue(d) as int);
    }
  }

  /** The parts separated by sep. */
  function Join(parts: seq<string>, sep: string): string
  {
    if |parts| == 0 then ""
    else if |parts| == 1 then parts[0]
    else parts[0] + sep + Join(parts[1..], sep)
  }

  /** Where the i-th part starts once the parts before it, each followed by
      a separator of length sepLen, are laid out. */
  function Offset(parts: seq<string>, sepLen: nat, i: nat): nat
    requires i <= |parts|
  {
    if i == 0 then 0 else Offset(parts, sepLen, i - 1) + |parts[i - 1]| + sepLen
  }

  lemma {:induction false} OffsetTail(parts: seq<string>, sepLen: nat, i: nat)
    requires 1 <= i <= |parts|
    ensures Offset(parts, sepLen, i) == |parts[0]| + sepLen + Offset(parts[1..], sepLen, i - 1)
    decreases i
  {
    if i > 1 {
      OffsetTail(parts, sepLen, i - 1);
      assert parts[1..][i - 2] == parts[i - 1];
    }
  }

  /** A slice of rest, read inside head + rest. */
  lemma SliceShift(head: string, rest: string, a: nat, b: nat)
    requires a <= b <= |rest|
    ensures (head + rest)[|head| + a..|head| + b] == rest[a..b]
  {
  }

  /** Joining at least two parts puts the first one and a separator before
      the join of the rest. */
  lemma JoinCons(parts: seq<string>, sep: string)
    requires 1 < |parts|
    ensures Join(parts, sep) == (parts[0] + sep) + Join(parts[1..], sep)
  {
  }

  /** The i-th part sits at its offset in the joined text. */
  lemma {:induction false} JoinPart(parts: seq<string>, sep: string, i: nat)
    requires i < |parts|
    ensures Offset(parts, |sep|, i) + |parts[i]| <= |Join(parts, sep)|
    ensures Join(parts, sep)[Offset(parts, |sep|, i)..Offset(parts, |sep|, i) + |parts[i]|] == parts[i]
    decreases i
  {
    if i == 0 {
      JoinPartFirst(parts, sep);
    } else {
      var rest := parts[1..];
      var head := parts[0] + sep;
      JoinPart(rest, sep, i - 1);
      OffsetTail(parts, |sep|, i);
      JoinCons(parts, sep);
      assert rest[i - 1] == parts[i];
      var at := Offset(rest, |sep|, i - 1);
      SliceShift(head, Join(rest, sep), at, at + |parts[i]|);
    }
  }

  /** The first part opens the joined text. */
  lemma JoinPartFirst(parts: seq<string>, sep: string)
    requires 0 < |parts|
    ensures |parts[0]| <= |Join(parts, sep)|
    ensures Join(parts, sep)[0..|parts[0]|] == parts[0]
  {
    if |parts| > 1 {
      var tail := sep + Join(parts[1..], sep);
      JoinCons(parts, sep);
      assert Join(parts, sep) == parts[0] + tail;
      SlicePrefix(parts[0], tail);
    }
  }

  /** A separator follows every part but the last in the joined text. */
  lemma {:induction false} JoinSep(parts: seq<string>, sep: string, i: nat)
    requires i + 1 < |parts|
    ensures Offset(parts, |sep|, i + 1) <= |Join(parts, sep)|
    ensures Join(parts, sep)[Offset(parts, |sep|, i) + |parts[i]|..Offset(parts, |sep|, i + 1)] == sep
    decreases i
  {
    if i == 0 {
      JoinSepFirst(parts, sep);
    } else {
      var rest := parts[1..];
      var head := parts[0] + sep;
      JoinCons(parts, sep);
      JoinSep(rest, sep, i - 1);
      OffsetTail(parts, |sep|, i);
      OffsetTail(parts, |sep|, i + 1);
      assert rest[i - 1] == parts[i];
      var a := Offset(rest, |sep|, i - 1) + |parts[i]|;
      var b := Offset(rest, |sep|, i);
      assert Offset(parts, |sep|, i) + |parts[i]| == |head| + a;
      assert Offset(parts, |sep|, i + 1) == |head| + b;
      SliceShift(head, Join(rest, sep), a, b);
    }
  }

  lemma JoinSepFirst(parts: seq<string>, sep: string)
    requires 1 < |parts|
    ensures Offset(parts, |sep|, 1) <= |Join(parts, sep)|
    ensures Join(parts, sep)[|parts[0]|..Offset(parts, |sep|, 1)] == sep
  {
    JoinCons(parts, sep);
    var tail := sep + Join(parts[1..], sep);
    assert Join(parts, sep) == parts[0] + tail;
    SliceShift(parts[0], tail, 0, |sep|);
    assert tail[..|sep|] == sep;
  }

  /** The last part ends the joined text. */
  lemma {:induction false} JoinLength(parts: seq<string>, sep: string)
    requires 0 < |parts|
    ensures |Join(parts, sep)| == Offset(parts, |sep|, |parts| - 1) + |parts[|parts| - 1]|
    decreases |parts|
  {
    if |parts| > 1 {
      JoinCons(parts, sep);
      JoinLength(parts[1..], sep);
      OffsetTail(parts, |sep|, |parts| - 1);
    }
  }

  lemma SlicePrefix(a: string, b: string)
    ensures (a + b)[..|a|] == a
  {
  }

  /** In the joined text the i-th part sits at its offset, a separator
      follows every part but the last, and the last part ends the text. */
  lemma JoinPlaces(parts: seq<string>, sep: string, i: nat)
    requires i < |parts|
    ensures Offset(parts, |sep|, i) + |parts[i]| <= |Join(parts, sep)|
    ensures Join(parts, sep)[Offset(parts, |sep|, i)..Offset(parts, |sep|, i) + |parts[i]|] == parts[i]
    ensures i + 1 < |parts| ==>
      && Offset(parts, |sep|, i + 1) <= |Join(parts, sep)|
      && Join(parts, sep)[Offset(parts, |sep|, i) + |parts[i]|..Offset(parts, |sep|, i + 1)] == sep
    ensures i + 1 == |parts| ==> |Join(parts, sep)| == Offset(parts, |sep|, i) + |parts[i]|
  {
    JoinPart(parts, sep, i);
    if i + 1 < |parts| {
      JoinSep(parts, sep, i);
    } else {
      JoinLength(parts, sep);
    }
  }

  function ArgText(a: Arg): string
  {
    match a
    case Atom(t) => t
    case Num(v) => IntToString(v)
  }

  function FactText(f: Fact): string
  {
    f.name + "(" + Join(seq(|f.args|, i requires 0 <= i < |f.args| => ArgText(f.args[i])), ", ") + ")"
  }

  function FactTexts(facts: seq<Fact>): (r: seq<string>)
    ensures |r| == |facts| && forall i :: 0 <= i < |facts| ==> r[i] == FactText(facts[i])
  {
    seq(|facts|, i requires 0 <= i < |facts| => FactText(facts[i]))
  }

  /** A Prolog list of the given element texts. */
  function ListText(texts: seq<string>): string
  {
    "[" + Join(texts, ", ") + "]"
  }

  /** Between the brackets each element text appears in order, every one
      but the last followed by ", ", and the last one closes the list. */
  lemma ListPlaces(texts: seq<string>, i: nat)
    requires i < |texts|
    ensures var r := ListText(texts);
      var at := 1 + Offset(texts, 2, i);
      && at + |texts[i]| < |r|
      && r[at..at + |texts[i]|] == texts[i]
      && (i + 1 < |texts| ==> 1 + Offset(texts, 2, i + 1) < |r| && r[at + |texts[i]|..1 + Offset(texts, 2, i + 1)] == ", ")
      && (i + 1 == |texts| ==> |r| == at + |texts[i]| + 1)
  {
    var j := Join(texts, ", ");
    JoinPlaces(texts, ", ", i);
    var at := Offset(texts, 2, i);
    assert ListText(texts) == "[" + (j + "]");
    Bracketed(j, at, at + |texts[i]|);
    if i + 1 < |texts| {
      JoinPlaces(texts, ", ", i + 1);
      Bracketed(j, at + |texts[i]|, Offset(texts, 2, i + 1));
    }
  }

  lemma Bracketed(j: string, a: nat, b: nat)
    requires a <= b <= |j|
    ensures ("[" + (j + "]"))[1 + a..1 + b] == j[a..b]
  {
    SliceShift("[", j + "]", a, b);
    assert (j + "]")[a..b] == j[a..b];
  }

  /** The position as the text of a list of facts. */
  function FenToContents(b: Board): (r: string)
    ensures |r| >= 2 && r[0] == '[' && r[|r| - 1] == ']'
  {
    ListText(FactTexts(BoardFacts(b)))
  }

  /** Between the brackets the text of each board fact appears in order,
      every one but the last followed by ", ", and the last one closes the
      list. */
  lemma FenToContentsLayout(b: Board, i: nat)
    requires i < |BoardFacts(b)|
    ensures var texts := FactTexts(BoardFacts(b));
      var r := FenToContents(b);
      var at := 1 + Offset(texts, 2, i);
      && at + |texts[i]| < |r|
      && r[at..at + |texts[i]|] == FactText(BoardFacts(b)[i])
      && (i + 1 < |texts| ==> 1 + Offset(texts, 2, i + 1) < |r| && r[at + |texts[i]|..1 + Offset(texts, 2, i + 1)] == ", ")
      && (i + 1 == |texts| ==> |r| == at + |texts[i]| + 1)
  {
    FactListPlaces(BoardFacts(b), i);
  }

  /** The layout of the list text of any fact sequence. */
  lemma FactListPlaces(facts: seq<Fact>, i: nat)
    requires i < |facts|
    ensures var texts := FactTexts(facts);
      var r := ListText(texts);
      var at := 1 + Offset(texts, 2, i);
      && at + |texts[i]| < |r|
      && r[at..at + |texts[i]|] == FactText(facts[i])
      && (i + 1 < |texts| ==> 1 + Offset(texts, 2, i + 1) < |r| && r[at + |texts[i]|..1 + Offset(texts, 2, i + 1)] == ", ")
      && (i + 1 == |texts| ==> |r| == at + |texts[i]| + 1)
  {
    ListPlaces(FactTexts(facts), i);
  }

  // ---------------------------------------------------------------------
  // Decoding facts into a board

  /** The square index the library computes for a file and rank counted from
      0; its square table is a Python list, so indices -64..-1 wrap around
      and larger ones raise. */
  function PlaceIndex(file: int, rank: int): Option<Square>
  {
    var sq := rank * 8 + file;
    if 0 <= sq < 64 then Some(sq)
    else if -64 <= sq < 0 then Some(sq + 64)
    else None
  }

  /** The square a contents fact places its piece on, when its coordinates
      are integers that index the library's square table. */
  function ContentsTarget(f: Fact): Option<Square>
  {
    if |f.args| >= 4 && f.args[2].Num? && f.args[3].Num? then PlaceIndex(f.args[2].value - 1, f.args[3].value - 1)
    else None
  }

  /** A fact the decoder accepts: its first argument is an atom, and a
      contents fact also names a known piece and a square of the table. */
  predicate WellFormed(f: Fact)
  {
    && |f.args| > 0 && f.args[0].Atom?
    && (f.name == "contents" ==>
         && |f.args| >= 4 && f.args[1].Atom?
         && ParsePiece(f.args[1].text).Some?
         && ContentsTarget(f).Some?)
  }

  /** Every fact of the list is well formed. */
  predicate AllWellFormed(facts: seq<Fact>)
    decreases |facts|
  {
    facts == [] || (WellFormed(facts[0]) && AllWellFormed(facts[1..]))
  }

  lemma {:induction false} AllWellFormedEach(facts: seq<Fact>)
    ensures AllWellFormed(facts) <==> forall i :: 0 <= i < |facts| ==> WellFormed(facts[i])
    decreases |facts|
  {
    if facts != [] {
      AllWellFormedEach(facts[1..]);
      assert forall i :: 1 <= i < |facts| ==> facts[1..][i - 1] == facts[i];
    }
  }

  /** Applies one fact to the board. Every fact must have an atom as its
      first argument, which is read as a side; unknown predicates are
      otherwise ignored. */
  function ApplyFact(b: Board, f: Fact): (r: Result<Board>)
    ensures r.Success? <==> WellFormed(f)
    ensures f.name !in {"contents", "turn", "kingside_castle", "queenside_castle"} ==>
      (r == Success(b) <==> |f.args| > 0 && f.args[0].Atom?)
  {
    if |f.args| == 0 then Failure("IndexError: fact has no arguments")
    else if !f.args[0].Atom? then Failure("AttributeError: side is not an atom")
    else
      var side := StrToSide(f.args[0].text);
      if f.name == "contents" then
        if |f.args| < 2 then Failure("IndexError: no piece argument")
        else if !f.args[1].Atom? then Failure("AttributeError: piece is not an atom")
        else if |f.args| < 4 then Failure("IndexError: missing coordinates")
        else match ParsePiece(f.args[1].text)
          case None => Failure("UnboundLocalError: unknown piece name")
          case Some(kind) =>
            if !(f.args[2].Num? && f.args[3].Num?) then Failure("TypeError: coordinate is not an integer")
            else match PlaceIndex(f.args[2].value - 1, f.args[3].value - 1)
              case None => Failure("IndexError: square out of range")
              case Some(sq) => Success(b.(pieces := b.pieces[sq := Piece(side, kind)]))
      else if f.name == "turn" then Success(b.(turn := side))
      else if f.name == "kingside_castle" then
        Success(b.(castling := if side == White then b.castling.(whiteKingside := true)
                               else b.castling.(blackKingside := true)))
      else if f.name == "queenside_castle" then
        Success(b.(castling := if side == White then b.castling.(whiteQueenside := true)
                               else b.castling.(blackQueenside := true)))
      else Success(b)
  }

  /** What one fact changes: a contents fact only the one square it
      names, a turn fact only the side to move, a castling fact only its own
      corner flag for the named side; an unknown predicate with a side
      argument leaves the board as it is. Only a missing or non-atom side, or
      a malformed contents fact, fails. */
  lemma ApplyFactFrame(b: Board, f: Fact)
    ensures ApplyFact(b, f).Success? ==> |f.args| > 0 && f.args[0].Atom?
    ensures ApplyFact(b, f).Success? ==> f.name != "contents" ==> ApplyFact(b, f).value.pieces == b.pieces
    ensures ApplyFact(b, f).Success? ==> f.name != "turn" ==> ApplyFact(b, f).value.turn == b.turn
    ensures ApplyFact(b, f).Success? ==> f.name != "kingside_castle" && f.name != "queenside_castle" ==> ApplyFact(b, f).value.castling == b.castling
    ensures ApplyFact(b, f).Success? && f.name == "contents" ==>
      && ContentsTarget(f).Some?
      && ApplyFact(b, f).value.pieces.Keys == b.pieces.Keys + {ContentsTarget(f).value}
      && forall sq :: sq in b.pieces && sq != ContentsTarget(f).value ==> ApplyFact(b, f).value.pieces[sq] == b.pieces[sq]
    ensures ApplyFact(b, f).Success? && f.name == "turn" && |f.args| > 0 && f.args[0].Atom? ==>
      ApplyFact(b, f).value.turn == StrToSide(f.args[0].text)
    ensures ApplyFact(b, f).Success? && f.name == "kingside_castle" && |f.args| > 0 && f.args[0].Atom? ==>
      ApplyFact(b, f).value.castling == if StrToSide(f.args[0].text) == White then b.castling.(whiteKingside := true)
                          else b.castling.(blackKingside := true)
    ensures ApplyFact(b, f).Success? && f.name == "queenside_castle" && |f.args| > 0 && f.args[0].Atom? ==>
      ApplyFact(b, f).value.castling == if StrToSide(f.args[0].text) == White then b.castling.(whiteQueenside := true)
                          else b.castling.(blackQueenside := true)
    ensures f.name !in {"contents", "turn", "kingside_castle", "queenside_castle"} ==>
      (ApplyFact(b, f) == Success(b) <==> |f.args| > 0 && f.args[0].Atom?)
    ensures ApplyFact(b, f).Failure? ==> |f.args| == 0 || !f.args[0].Atom? || f.name == "contents"
  {
  }

  /** Applies the facts in order; the first failure ends the decoding, so
      decoding succeeds exactly when every fact decodes. */
  function ApplyAll(b: Board, facts: seq<Fact>): (r: Result<Board>)
    ensures r.Success? <==> AllWellFormed(facts)
    decreases |facts|
  {
    if facts == [] then Success(b)
    else
      var next :- ApplyFact(b, facts[0]);
      ApplyAll(next, facts[1..])
  }

  /** Builds a board from a list of facts, starting from the empty board;
      it fails exactly when some fact does not decode. */
  function ConvertPosToBoard(facts: seq<Fact>): (r: Result<Board>)
    ensures r.Success? <==> AllWellFormed(facts)
  {
    ApplyAll(EmptyBoard, facts)
  }

  lemma {:induction false} ApplyAllAppend(b: Board, xs: seq<Fact>, ys: seq<Fact>)
    ensures ApplyAll(b, xs + ys) == if ApplyAll(b, xs).Failure? then ApplyAll(b, xs)
                                    else ApplyAll(ApplyAll(b, xs).value, ys)
    decreases |xs|
  {
    if xs == [] {
      assert xs + ys == ys;
    } else {
      assert (xs + ys)[0] == xs[0];
      assert (xs + ys)[1..] == xs[1..] + ys;
      if ApplyFact(b, xs[0]).Success? {
        ApplyAllAppend(ApplyFact(b, xs[0]).value, xs[1..], ys);
      }
    }
  }

  /** A contents fact written by the encoder puts its piece back on its
      square: col - 1 and row - 1 are the file and rank it was written from. */
  lemma ApplyContentsFact(b: Board, sq: Square, p: Piece)
    ensures ApplyFact(b, ContentsFact(sq, p)) == Success(b.(pieces := b.pieces[sq := p]))
  {
    SideRoundTrip(p.color);
    ParsePieceRoundTrip(p.kind);
    assert RankOf(sq) * 8 + FileOf(sq) == sq;
  }

  /** The occupied squares from `from` on. */
  function Above(pieces: map<Square, Piece>, from: int): map<Square, Piece>
  {
    map sq | sq in pieces && sq >= from :: pieces[sq]
  }

  lemma ApplyAllCons(b: Board, f: Fact, rest: seq<Fact>)
    ensures ApplyAll(b, [f] + rest) == if ApplyFact(b, f).Failure? then Failure(ApplyFact(b, f).error)
                                       else ApplyAll(ApplyFact(b, f).value, rest)
  {
    assert ([f] + rest)[0] == f;
    assert ([f] + rest)[1..] == rest;
  }

  lemma AboveStep(m: map<Square, Piece>, pieces: map<Square, Piece>, sq: Square)
    ensures sq in pieces ==> m[sq := pieces[sq]] + Above(pieces, sq + 1) == m + Above(pieces, sq)
    ensures sq !in pieces ==> Above(pieces, sq + 1) == Above(pieces, sq)
  {
    if sq in pieces {
      assert (m[sq := pieces[sq]] + Above(pieces, sq + 1)).Keys == (m + Above(pieces, sq)).Keys;
    }
  }

  /** Decoding the contents facts from `from` on places exactly the pieces
      on those squares on top of b. */
  ghost predicate DecodesFrom(pieces: map<Square, Piece>, from: nat, b: Board)
    requires from <= 64
  {
    ApplyAll(b, ContentsFrom(pieces, from)) == Success(b.(pieces := b.pieces + Above(pieces, from)))
  }

  /** An occupied square: its fact, then the facts after it. */
  lemma ContentsRoundTripPlace(pieces: map<Square, Piece>, sq: Square, b: Board)
    requires sq in pieces
    requires DecodesFrom(pieces, sq + 1, b.(pieces := b.pieces[sq := pieces[sq]]))
    ensures DecodesFrom(pieces, sq, b)
  {
    var rest := ContentsFrom(pieces, sq + 1);
    assert ContentsFrom(pieces, sq) == [ContentsFact(sq, pieces[sq])] + rest;
    ApplyContentsFact(b, sq, pieces[sq]);
    ApplyAllCons(b, ContentsFact(sq, pieces[sq]), rest);
    AboveStep(b.pieces, pieces, sq);
  }

  /** An empty square: nothing to decode. */
  lemma ContentsRoundTripSkip(pieces: map<Square, Piece>, sq: Square, b: Board)
    requires sq !in pieces
    requires DecodesFrom(pieces, sq + 1, b)
    ensures DecodesFrom(pieces, sq, b)
  {
    assert ContentsFrom(pieces, sq) == ContentsFrom(pieces, sq + 1);
    AboveStep(b.pieces, pieces, sq);
  }

  /** Past the last square nothing is left. */
  lemma ContentsRoundTripEnd(pieces: map<Square, Piece>, b: Board)
    ensures DecodesFrom(pieces, 64, b)
  {
    assert Above(pieces, 64) == map[];
    assert b.pieces + map[] == b.pieces;
  }

  lemma {:induction false} ContentsRoundTrip(pieces: map<Square, Piece>, from: nat, b: Board)
    requires from <= 64
    ensures DecodesFrom(pieces, from, b)
    decreases 64 - from
  {
    if from == 64 {
      ContentsRoundTripEnd(pieces, b);
    } else {
      ContentsRoundTrip(pieces, from + 1, NextBoard(pieces, from, b));
      ContentsRoundTripStep(pieces, from, b);
    }
  }

  /** The board after decoding the fact of square sq, if it has one. */
  function NextBoard(pieces: map<Square, Piece>, sq: Square, b: Board): Board
  {
    if sq in pieces then b.(pieces := b.pieces[sq := pieces[sq]]) else b
  }

  lemma ContentsRoundTripStep(pieces: map<Square, Piece>, sq: Square, b: Board)
    requires DecodesFrom(pieces, sq + 1, NextBoard(pieces, sq, b))
    ensures DecodesFrom(pieces, sq, b)
  {
    if sq in pieces {
      ContentsRoundTripPlace(pieces, sq, b);
    } else {
      ContentsRoundTripSkip(pieces, sq, b);
    }
  }

  lemma CastlingRoundTrip(b: Board)
    requires b.castling == Castling(false, false, false, false)
    ensures forall c :: ApplyAll(b, CastlingFacts(c)) == Success(b.(castling := c))
  {
    SideRoundTrip(White);
    SideRoundTrip(Black);
    forall c: Castling ensures ApplyAll(b, CastlingFacts(c)) == Success(b.(castling := c)) {
      var wk := CastlingFact("kingside_castle", White, c.whiteKingside);
      var wq := CastlingFact("queenside_castle", White, c.whiteQueenside);
      var bk := CastlingFact("kingside_castle", Black, c.blackKingside);
      var bq := CastlingFact("queenside_castle", Black, c.blackQueenside);
      var b1 := b.(castling := b.castling.(whiteKingside := c.whiteKingside));
      var b2 := b1.(castling := b1.castling.(whiteQueenside := c.whiteQueenside));
      var b3 := b2.(castling := b2.castling.(blackKingside := c.blackKingside));
      assert ApplyAll(b, wk) == Success(b1);
      assert ApplyAll(b1, wq) == Success(b2);
      assert ApplyAll(b2, bk) == Success(b3);
      assert ApplyAll(b3, bq) == Success(b.(castling := c));
      ApplyAllAppend(b, wk, wq);
      ApplyAllAppend(b, wk + wq, bk);
      ApplyAllAppend(b, wk + wq + bk, bq);
    }
  }

  /** Decoding the facts of a position gives the position back: every piece
      returns to its square, the side to move and all four castling flags are
      restored. */
  lemma ConvertInvertsEncoding(b: Board)
    ensures ConvertPosToBoard(BoardFacts(b)) == Success(b)
  {
    var contents := ContentsFrom(b.pieces, 0);
    var turn := [Fact("turn", [Atom(SideToStr(b.turn))])];
    ContentsRoundTrip(b.pieces, 0, EmptyBoard);
    assert EmptyBoard.pieces + Above(b.pieces, 0) == b.pieces;
    var b1 := EmptyBoard.(pieces := b.pieces);
    SideRoundTrip(b.turn);
    assert ApplyAll(b1, turn) == Success(b1.(turn := b.turn));
    ApplyAllAppend(EmptyBoard, contents, turn);
    CastlingRoundTrip(b1.(turn := b.turn));
    ApplyAllAppend(EmptyBoard, contents + turn, CastlingFacts(b.castling));
  }

  /** The coordinates are not range-checked: a file of 9 on rank 1 lands on
      a2, the same square as file 1 on rank 2, and a file of 0 on rank 1
      wraps around to h8. */
  lemma CoordinatesAreNotRangeChecked()
    ensures ApplyFact(EmptyBoard, Fact("contents", [Atom("white"), Atom("pawn"), Num(9), Num(1)]))
         == ApplyFact(EmptyBoard, Fact("contents", [Atom("white"), Atom("pawn"), Num(1), Num(2)]))
    ensures ApplyFact(EmptyBoard, Fact("contents", [Atom("white"), Atom("pawn"), Num(0), Num(1)]))
         == Success(EmptyBoard.(pieces := map[63 := Piece(White, Pawn)]))
  {
    LowerKeepsLowercase("white");
    LowerKeepsLowercase("pawn");
  }

  // ---------------------------------------------------------------------
  // Positions of games

  function Max1(n: int): nat { if n >= 1 then n else 1 }

  /** The positions read from one game's mainline p0 (start) .. pk: the
      start position is skipped, and so is the final one (the loop stops at
      the end node); a non-zero cap stops after max(cap, 1) positions. */
  function GameWindow<P>(game: seq<P>, cap: int): (r: seq<P>)
    ensures forall i :: 0 <= i < |r| ==> i + 2 < |game| && r[i] == game[i + 1]
    ensures cap != 0 ==> |r| <= Max1(cap)
  {
    if |game| < 3 then []
    else
      var available := |game| - 2;
      var n := if cap != 0 && available > Max1(cap) then Max1(cap) else available;
      game[1..1 + n]
  }

  /** The windows of the games, concatenated. */
  function Windows<P>(games: seq<seq<P>>, cap: int): seq<P>
  {
    if games == [] then [] else Windows(games[..|games| - 1], cap) + GameWindow(games[|games| - 1], cap)
  }

  /** How many games the reader consumes. */
  function GamesRead(count: nat, numGames: int): nat
  {
    if numGames != 0 && count > Max1(numGames) then Max1(numGames) else count
  }

  /** Reads positions from a sequence of games (each its mainline of
      positions), with a cap per game and a cap on games; a zero cap is no
      cap. */
  method PositionsPgn<P>(games: seq<seq<P>>, numGames: int, posPerGame: int)
    returns (positions: seq<P>, gamesRead: nat)
    ensures gamesRead == GamesRead(|games|, numGames)
    ensures positions == Windows(games[..gamesRead], posPerGame)
  {
    positions := [];
    gamesRead := 0;
    while gamesRead < |games|
      invariant gamesRead <= |games|
      invariant positions == Windows(games[..gamesRead], posPerGame)
      invariant numGames != 0 && gamesRead > 0 ==> gamesRead < Max1(numGames)
    {
      var window := GamePositions(games[gamesRead], posPerGame);
      positions := positions + window;
      assert games[..gamesRead + 1][..gamesRead] == games[..gamesRead];
      gamesRead := gamesRead + 1;
      if numGames != 0 && gamesRead >= numGames {
        break;
      }
    }
  }

  /** The positions read from one game: from the node after the start, up
      to but excluding the end node, stopping once a non-zero cap is
      reached. */
  method GamePositions<P>(game: seq<P>, posPerGame: int) returns (window: seq<P>)
    ensures window == GameWindow(game, posPerGame)
  {
    window := [];
    var count := 0;
    var node := 1;
    while node < |game| - 1
      invariant 1 <= node
      invariant count == node - 1
      invariant node - 1 <= (if |game| >= 2 then |game| - 2 else 0)
      invariant posPerGame != 0 ==> count < Max1(posPerGame)
      invariant node <= |game| || |game| == 0
      invariant |game| == 0 ==> window == []
      invariant |game| > 0 ==> window == game[1..node]
    {
      window := window + [game[node]];
      count := count + 1;
      if posPerGame != 0 && count >= posPerGame {
        break;
      }
      node := node + 1;
    }
  }

  /** For each position of the windows, the game it was read from and its
      index in that game's mainline. */
  function WindowOrigins<P>(games: seq<seq<P>>, cap: int): seq<(int, int)>
  {
    if games == [] then []
    else
      var g := |games| - 1;
      WindowOrigins(games[..g], cap) + seq(|GameWindow(games[g], cap)|, i => (g, i + 1))
  }

  /** No position of a game's start node or end node is read: every read
      position is an inner mainline position of a game that was read. */
  lemma {:induction false} WindowsAreInnerPositions<P>(games: seq<seq<P>>, cap: int)
    ensures |WindowOrigins(games, cap)| == |Windows(games, cap)|
    ensures forall k :: 0 <= k < |Windows(games, cap)| ==>
      var (g, j) := WindowOrigins(games, cap)[k];
      0 <= g < |games| && 1 <= j < |games[g]| - 1 && Windows(games, cap)[k] == games[g][j]
    decreases |games|
  {
    if games != [] {
      var n := |games| - 1;
      var init := games[..n];
      WindowsAreInnerPositions(init, cap);
      var gw := GameWindow(games[n], cap);
      var w := Windows(games, cap);
      var o := WindowOrigins(games, cap);
      var wi := Windows(init, cap);
      var oi := WindowOrigins(init, cap);
      assert w == wi + gw;
      assert o == oi + seq(|gw|, i => (n, i + 1));
      forall k | 0 <= k < |w|
        ensures var (g, j) := o[k]; 0 <= g < |games| && 1 <= j < |games[g]| - 1 && w[k] == games[g][j]
      {
        if k < |wi| {
          assert w[k] == wi[k] && o[k] == oi[k];
          assert games[oi[k].0] == init[oi[k].0];
        } else {
          assert w[k] == gw[k - |wi|] && o[k] == (n, k - |wi| + 1);
        }
      }
    }
  }

  lemma MulSucc(m: nat, n: nat)
    ensures m * (n + 1) == m * n + m
  {
  }

  /** With a non-zero cap, at most max(cap, 1) positions per game are read. */
  lemma {:induction false} WindowsCapped<P>(games: seq<seq<P>>, cap: int)
    requires cap != 0
    ensures |Windows(games, cap)| <= Max1(cap) * |games|
    decreases |games|
  {
    if games != [] {
      var n := |games| - 1;
      var m := Max1(cap);
      WindowsCapped(games[..n], cap);
      assert |Windows(games, cap)| == |Windows(games[..n], cap)| + |GameWindow(games[n], cap)|;
      assert |GameWindow(games[n], cap)| <= m;
      MulSucc(m, n);
    }
  }

  // ---------------------------------------------------------------------
  // Queries

  /** A move; a promotion is the piece promoted to. */
  datatype Move = Move(from: Square, to: Square, promotion: Option<PieceType>)

  /** A move is false in a condition only when it is the null move a1a1
      without promotion. */
  predicate MoveIsTruthy(m: Move)
  {
    m.from != 0 || m.to != 0 || m.promotion.Some?
  }

  function SquareName(sq: Square): (r: string)
    ensures |r| == 2 && 'a' <= r[0] <= 'h' && '1' <= r[1] <= '8'
  {
    [(FileOf(sq) + 'a' as int) as char, (RankOf(sq) + '1' as int) as char]
  }

  /** The square a name denotes; names other than the 64 square names have
      none (the library raises). */
  function ParseSquare(name: string): (r: Option<Square>)
    ensures r.Some? ==> SquareName(r.value) == name
    ensures r.None? ==> forall sq: Square :: SquareName(sq) != name
  {
    if |name| == 2 && 'a' <= name[0] <= 'h' && '1' <= name[1] <= '8' then
      var sq: Square := (name[1] as int - '1' as int) * 8 + (name[0] as int - 'a' as int);
      assert SquareName(sq) == name;
      Some(sq)
    else None
  }

  lemma SquareNameRoundTrip(sq: Square)
    ensures ParseSquare(SquareName(sq)) == Some(sq)
  {
  }

  /** f(position, from, to) for a given move, f(position, From, To) otherwise. */
  function QueryGoal(position: string, move: Option<Move>): (r: string)
    ensures |r| >= 3 + |position| && r[..2 + |position|] == "f(" + position && r[|r| - 1] == ')'
    ensures (r[|r| - 2] == 'o') <==> !(move.Some? && MoveIsTruthy(move.value))
    ensures move.Some? && MoveIsTruthy(move.value) ==>
      r[2 + |position|..] == ", " + SquareName(move.value.from) + ", " + SquareName(move.value.to) + ")"
    ensures !(move.Some? && MoveIsTruthy(move.value)) ==> r[2 + |position|..] == ", From, To)"
  {
    if move.Some? && MoveIsTruthy(move.value) then
      "f(" + position + ", " + SquareName(move.value.from) + ", " + SquareName(move.value.to) + ")"
    else
      "f(" + position + ", From, To)"
  }

  /** The squares of a given move can be read back from its goal. */
  lemma QueryGoalNamesMove(position: string, m: Move)
    requires MoveIsTruthy(m)
    ensures var r := QueryGoal(position, Some(m));
      |r| == |position| + 11
      && ParseSquare(r[|position| + 4..|position| + 6]) == Some(m.from)
      && ParseSquare(r[|position| + 8..|position| + 10]) == Some(m.to)
  {
    var r := QueryGoal(position, Some(m));
    var tail := r[2 + |position|..];
    assert tail[2..4] == SquareName(m.from);
    assert tail[6..8] == SquareName(m.to);
    assert r[|position| + 4..|position| + 6] == tail[2..4];
    assert r[|position| + 8..|position| + 10] == tail[6..8];
    SquareNameRoundTrip(m.from);
    SquareNameRoundTrip(m.to);
  }

  lemma GoalOpens(position: string, move: Option<Move>)
    ensures |QueryGoal(position, move)| >= 2 && QueryGoal(position, move)[..2] == "f("
  {
    var goal := QueryGoal(position, move);
    assert goal[..2] == goal[..2 + |position|][..2];
  }

  /** The pieces of prefix + goal + ")", read back by position. */
  lemma Wrapped(prefix: string, goal: string)
    requires |prefix| >= 2 && prefix[..2] == "ca"
    ensures var q := prefix + goal + ")";
      && |q| == |prefix| + |goal| + 1
      && q[..|prefix|] == prefix
      && q[|prefix|..|prefix| + |goal|] == goal
      && q[|q| - 1] == ')'
      && q[..2] != "f("
  {
    var q := prefix + goal + ")";
    assert q[..2] == prefix[..2];
  }

  /** The query text for a position: the goal, wrapped in a time limit
      exactly when the limit is given and non-zero. */
  function QueryText(position: string, move: Option<Move>, timeLimit: Option<int>): (q: string)
    ensures !(timeLimit.Some? && timeLimit.value != 0) ==> q == QueryGoal(position, move)
    ensures timeLimit.Some? && timeLimit.value != 0 ==>
      var goal := QueryGoal(position, move);
      |q| > |goal| + 1 && q[|q| - |goal| - 1..|q| - 1] == goal && q[|q| - 1] == ')'
      && q[..|q| - |goal| - 1] == "call_with_time_limit(" + IntToString(timeLimit.value) + ", "
    ensures (|q| >= 2 && q[..2] == "f(") <==> !(timeLimit.Some? && timeLimit.value != 0)
  {
    var goal := QueryGoal(position, move);
    if timeLimit.Some? && timeLimit.value != 0 then
      var prefix := "call_with_time_limit(" + IntToString(timeLimit.value) + ", ";
      Wrapped(prefix, goal);
      prefix + goal + ")"
    else
      GoalOpens(position, move);
      goal
  }

  /** The query text for a tactic on a board, the board written as its
      list of facts: the goal on those facts, wrapped in a time limit exactly
      when the limit is given and non-zero. */
  function ChessQuery(b: Board, move: Option<Move>, timeLimit: Option<int>): (q: string)
    ensures var goal := QueryGoal(FenToContents(b), move);
      q == if timeLimit.Some? && timeLimit.value != 0
           then "call_with_time_limit(" + IntToString(timeLimit.value) + ", " + goal + ")"
           else goal
  {
    var q := QueryText(FenToContents(b), move, timeLimit);
    assert timeLimit.Some? && timeLimit.value != 0 ==>
      q == q[..|q| - |QueryGoal(FenToContents(b), move)| - 1] + q[|q| - |QueryGoal(FenToContents(b), move)| - 1..|q| - 1] + [q[|q| - 1]];
    q
  }
}
