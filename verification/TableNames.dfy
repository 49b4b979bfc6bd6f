/** Names of tables: pieces and pawns of both sides, with a mark on every pawn that
    faces an enemy pawn. */
module TableNames {
  import opened PawnKeys
  import opened PawnMaps
  import opened Wrappers

  // ---------------------------------------------------------------------
  // Opposed flags.

  predicate IsFacing(w: ColorWord, i: nat)
    requires i < |w|
  {
    w[i] == SideToMove && i + 1 < |w| && w[i + 1] == SideNotToMove
  }

  /** Whether each pawn of the side to move faces an enemy, on the first `n` slots. */
  function FlagsUpTo(w: ColorWord, n: nat): seq<bool>
    requires n <= |w|
  {
    if n == 0 then []
    else FlagsUpTo(w, n - 1) + if w[n - 1] == SideToMove then [IsFacing(w, n - 1)] else []
  }

  /** The flags of both sides, each in its own direction of play. */
  function StmFlags(w: ColorWord): seq<bool> { FlagsUpTo(w, |w|) }

  function SntmFlags(w: ColorWord): seq<bool> { StmFlags(TwinWord(w)) }

  lemma {:induction false} FlagsTail(w: ColorWord, n: nat)
    requires 0 < n <= |w|
    ensures FlagsUpTo(w, n) == (if w[0] == SideToMove then [IsFacing(w, 0)] else []) + FlagsUpTo(w[1..], n - 1)
  {
    if n > 1 {
      FlagsTail(w, n - 1);
    }
  }

  lemma {:induction false} FlagsBefore(t: ColorWord, x: Side, n: nat)
    requires n < |t|
    ensures FlagsUpTo(t + [x], n) == FlagsUpTo(t, n)
  {
    if n > 0 {
      FlagsBefore(t, x, n - 1);
    }
  }

  /** A further pawn decides the flag of the pawn before it. */
  lemma FlagsOfMore(t: ColorWord, x: Side)
    ensures var f := StmFlags(t);
            && (t != [] && t[|t| - 1] == SideToMove ==> f != [] && !f[|f| - 1])
            && StmFlags(t + [x]) == (if t != [] && t[|t| - 1] == SideToMove then f[|f| - 1 := x == SideNotToMove]
                                     else f)
                                    + if x == SideToMove then [false] else []
  {
    var w := t + [x];
    assert StmFlags(w) == FlagsUpTo(w, |t|) + if x == SideToMove then [false] else [];
    if t != [] {
      FlagsBefore(t, x, |t| - 1);
      assert StmFlags(t) == FlagsUpTo(t, |t| - 1) + if t[|t| - 1] == SideToMove then [false] else [];
      assert FlagsUpTo(w, |t|) == FlagsUpTo(w, |t| - 1) + if t[|t| - 1] == SideToMove then [x == SideNotToMove] else [];
    }
  }

  lemma TwinOfTail(w: ColorWord)
    requires w != []
    ensures TwinWord(w) == TwinWord(w[1..]) + [Other(w[0])]
  {
  }

  /** The last flag of the other side tells the side of the lowest pawn. */
  lemma {:induction false} LowestPawn(w: ColorWord)
    requires w != []
    ensures var f := SntmFlags(w);
            && (w[0] == SideNotToMove ==> f == SntmFlags(w[1..]) + [false])
            && (w[0] == SideToMove && f != [] ==> f[|f| - 1])
            && (w[0] == SideToMove && !IsFacing(w, 0) ==> SntmFlags(w[1..]) == f)
            && (IsFacing(w, 0) ==> f != [] && SntmFlags(w[1..]) == f[..|f| - 1] + [false])
  {
    var v := w[1..];
    TwinOfTail(w);
    FlagsOfMore(TwinWord(v), Other(w[0]));
    if v != [] {
      LowestPawn(v);
      assert TwinWord(v)[|v| - 1] == Other(v[0]);
    }
  }

  lemma {:induction false} FlagCounts(w: ColorWord)
    ensures |StmFlags(w)| + |SntmFlags(w)| == |w|
  {
    if w != [] {
      FlagCounts(w[1..]);
      FlagsTail(w, |w|);
      LowestPawn(w);
    }
  }

  /** The ordered flags of both sides determine the colours of all pawns. */
  lemma {:induction false} FlagsDetermineWord(v: ColorWord, w: ColorWord)
    requires StmFlags(v) == StmFlags(w) && SntmFlags(v) == SntmFlags(w)
    ensures v == w
  {
    FlagCounts(v);
    FlagCounts(w);
    if v != [] {
      LowestPawn(v);
      LowestPawn(w);
      FlagsTail(v, |v|);
      FlagsTail(w, |w|);
      SideOfLowest(v);
      SideOfLowest(w);
      if v[0] == SideToMove {
        assert StmFlags(v)[0] == IsFacing(v, 0) && StmFlags(w)[0] == IsFacing(w, 0);
        assert StmFlags(v)[1..] == StmFlags(v[1..]) && StmFlags(w)[1..] == StmFlags(w[1..]);
      } else {
        assert StmFlags(v) == StmFlags(v[1..]) && StmFlags(w) == StmFlags(w[1..]);
        assert SntmFlags(v)[..|SntmFlags(v)| - 1] == SntmFlags(v[1..]);
      }
      FlagsDetermineWord(v[1..], w[1..]);
      assert v == [v[0]] + v[1..] && w == [w[0]] + w[1..];
    }
  }

  lemma SideOfLowest(w: ColorWord)
    requires w != []
    ensures var f := SntmFlags(w); w[0] == SideNotToMove <==> f != [] && !f[|f| - 1]
  {
    LowestPawn(w);
  }

  function Marks(f: seq<bool>): nat {
    if f == [] then 0 else Marks(f[..|f| - 1]) + if f[|f| - 1] then 1 else 0
  }

  lemma {:induction false} MarksAreFacing(w: ColorWord, n: nat)
    requires n <= |w|
    ensures Marks(FlagsUpTo(w, n)) == Facing(w, n)
  {
    if n > 0 {
      MarksAreFacing(w, n - 1);
      var f := FlagsUpTo(w, n);
      if w[n - 1] == SideToMove {
        assert f[..|f| - 1] == FlagsUpTo(w, n - 1);
      } else {
        assert f == FlagsUpTo(w, n - 1);
      }
    }
  }

  lemma {:induction false} TwinKeepsPairs(w: ColorWord)
    ensures PairsIn(TwinWord(w)) == PairsIn(w)
  {
    if w == [] {
    } else {
      var v := w[1..];
      TwinKeepsPairs(v);
      TwinOfTail(w);
      FacingPrefix(TwinWord(v), Other(w[0]), |v|);
      var t := TwinWord(v) + [Other(w[0])];
      assert Facing(t, |t|) == Facing(t, |v|);
      FacingTail(w, |w|);
      if v != [] {
        assert TwinWord(v)[|v| - 1] == Other(v[0]);
      }
    }
  }

  lemma {:induction false} FacingTail(w: ColorWord, n: nat)
    requires 0 < n <= |w|
    ensures Facing(w, n) == Facing(w[1..], n - 1) + if IsFacing(w, 0) then 1 else 0
  {
    if n > 1 {
      FacingTail(w, n - 1);
    }
  }

  /** Both sides carry one mark for each opposing pair. */
  lemma SidesAreMarkedAlike(w: ColorWord)
    ensures Marks(StmFlags(w)) == Marks(SntmFlags(w)) == PairsIn(w)
  {
    MarksAreFacing(w, |w|);
    MarksAreFacing(TwinWord(w), |w|);
    TwinKeepsPairs(w);
  }

  // ---------------------------------------------------------------------
  // Finding the word of given flags.

  function BitsOf(x: nat, n: nat): (w: ColorWord)
    ensures |w| == n
  {
    if n == 0 then [] else [if x % 2 == 0 then SideToMove else SideNotToMove] + BitsOf(x / 2, n - 1)
  }

  lemma {:induction false} WordHasBits(w: ColorWord) returns (x: nat)
    ensures x < Pow2(|w|) && BitsOf(x, |w|) == w
  {
    if w == [] {
      x := 0;
    } else {
      var y := WordHasBits(w[1..]);
      x := 2 * y + Bit(w[0]);
      assert x / 2 == y;
      assert w == [w[0]] + w[1..];
    }
  }

  predicate HasFlags(w: ColorWord, stm: seq<bool>, sntm: seq<bool>) {
    StmFlags(w) == stm && SntmFlags(w) == sntm
  }

  /** Searches all words for the one with the given flags. */
  method FindOrder(stm: seq<bool>, sntm: seq<bool>) returns (order: Option<ColorWord>)
    ensures order.Some? ==> HasFlags(order.value, stm, sntm)
    ensures forall w | HasFlags(w, stm, sntm) :: order == Some(w)
  {
    order := None;
    var len := |stm| + |sntm|;
    var x := 0;
    while x < Pow2(len)
      invariant order.None?
      invariant forall y: nat | y < x :: !HasFlags(BitsOf(y, len), stm, sntm)
    {
      var w := BitsOf(x, len);
      if StmFlags(w) == stm && SntmFlags(w) == sntm {
        order := Some(w);
        forall v | HasFlags(v, stm, sntm) ensures v == w {
          FlagsDetermineWord(v, w);
        }
        return;
      }
      x := x + 1;
    }
    forall w: ColorWord ensures |w| == len ==> !HasFlags(w, stm, sntm) {
      var y := WordHasBits(w);
    }
    forall w: ColorWord ensures |StmFlags(w)| + |SntmFlags(w)| == |w| {
      FlagCounts(w);
    }
  }

  // ---------------------------------------------------------------------
  // Material and its name.

  /** Kings, queens, rooks, bishops and knights, in this order. */
  const LETTERS: seq<char> := ['K', 'Q', 'R', 'B', 'N']

  type Counts = c: seq<nat> | |c| == 5 witness [0, 0, 0, 0, 0]

  type Flags = f: seq<seq<bool>> | |f| == 8 witness [[], [], [], [], [], [], [], []]

  datatype Material = Material(key: Key, stm: Counts, sntm: Counts)

  function Sum(s: seq<nat>): nat {
    if s == [] then 0 else Sum(s[..|s| - 1]) + s[|s| - 1]
  }

  function PawnsOn(k: Key, n: nat): nat
    requires n <= 8
  {
    if n == 0 then 0 else PawnsOn(k, n - 1) + |k[n - 1]|
  }

  function Pieces(m: Material): nat {
    Sum(m.stm) + Sum(m.sntm) + PawnsOn(m.key, 8)
  }

  predicate IsMaterial(m: Material) {
    && m.stm[0] == m.sntm[0] == 1
    && (forall f | 0 <= f < 8 :: |m.key[f]| <= 6)
    && Pieces(m) <= 8
  }

  function Repeated(c: char, n: nat): string {
    if n == 0 then "" else Repeated(c, n - 1) + [c]
  }

  function PieceText(counts: Counts, n: nat): string
    requires n <= 5
  {
    if n == 0 then "" else PieceText(counts, n - 1) + Repeated(LETTERS[n - 1], counts[n - 1])
  }

  function FileLetter(file: nat): char
    requires file < 8
  {
    ('a' as int + file) as char
  }

  function PawnMark(file: nat, opposed: bool): string
    requires file < 8
  {
    ['P', FileLetter(file)] + if opposed then "o" else ""
  }

  function FileText(file: nat, flags: seq<bool>): string
    requires file < 8
  {
    if flags == [] then "" else FileText(file, flags[..|flags| - 1]) + PawnMark(file, flags[|flags| - 1])
  }

  function PawnText(flags: Flags, n: nat): string
    requires n <= 8
  {
    if n == 0 then "" else PawnText(flags, n - 1) + FileText(n - 1, flags[n - 1])
  }

  function SideText(counts: Counts, flags: Flags): string {
    PieceText(counts, 5) + PawnText(flags, 8)
  }

  function AllFlags(k: Key, side: Side): Flags {
    seq(8, f requires 0 <= f < 8 => if side == SideToMove then StmFlags(k[f]) else SntmFlags(k[f]))
  }

  function Name(m: Material): string {
    SideText(m.stm, AllFlags(m.key, SideToMove)) + "_" + SideText(m.sntm, AllFlags(m.key, SideNotToMove))
  }

  // ---------------------------------------------------------------------
  // Parsing.

  datatype NameError =
    | MissingSeparator | InvalidFile | InvalidPiece | NotOneKing
    | TooManyPawns | InconsistentFlags | TooManyPieces | NotCanonical

  /** What has been read of one side. */
  datatype Reading = Reading(counts: Counts, flags: Flags) {
    function Piece(k: nat): Reading
      requires k < 5
    {
      this.(counts := counts[k := counts[k] + 1])
    }

    function Pawn(file: nat, opposed: bool): Reading
      requires file < 8
    {
      this.(flags := flags[file := flags[file] + [opposed]])
    }
  }

  const NOTHING := Reading([0, 0, 0, 0, 0], [[], [], [], [], [], [], [], []])

  function LetterIndex(c: char): Option<nat> {
    match c
    case 'K' => Some(0)
    case 'Q' => Some(1)
    case 'R' => Some(2)
    case 'B' => Some(3)
    case 'N' => Some(4)
    case _ => None
  }

  predicate IsFile(c: char) { 'a' <= c <= 'h' }

  function ReadSide(text: string, acc: Reading): Result<Reading, NameError>
    decreases |text|
  {
    if text == "" then Success(acc)
    else
      var k := LetterIndex(text[0]);
      if k.Some? && k.value < 5 then ReadSide(text[1..], acc.Piece(k.value))
      else if text[0] != 'P' then Failure(InvalidPiece)
      else if |text| < 2 || !IsFile(text[1]) then Failure(InvalidFile)
      else
        var opposed := |text| > 2 && text[2] == 'o';
        ReadSide(text[(if opposed then 3 else 2)..], acc.Pawn(text[1] as int - 'a' as int, opposed))
  }

  lemma {:induction false} ReadRepeated(k: nat, n: nat, rest: string, acc: Reading)
    requires k < 5
    ensures ReadSide(Repeated(LETTERS[k], n) + rest, acc)
            == ReadSide(rest, acc.(counts := acc.counts[k := acc.counts[k] + n]))
    decreases n
  {
    if n == 0 {
      assert Repeated(LETTERS[k], 0) + rest == rest;
      assert acc.(counts := acc.counts[k := acc.counts[k] + 0]) == acc;
    } else {
      var letter := LETTERS[k];
      assert Repeated(letter, n) + rest == Repeated(letter, n - 1) + ([letter] + rest);
      ReadRepeated(k, n - 1, [letter] + rest, acc);
      var acc' := acc.(counts := acc.counts[k := acc.counts[k] + n - 1]);
      assert ([letter] + rest)[1..] == rest;
      assert ReadSide([letter] + rest, acc') == ReadSide(rest, acc'.Piece(k));
      assert acc'.Piece(k) == acc.(counts := acc.counts[k := acc.counts[k] + n]);
    }
  }

  function FirstCounts(counts: Counts, n: nat): Counts {
    seq(5, i requires 0 <= i < 5 => if i < n then counts[i] else 0)
  }

  lemma {:induction false} ReadPieces(counts: Counts, n: nat, rest: string)
    requires n <= 5
    ensures ReadSide(PieceText(counts, n) + rest, NOTHING) == ReadSide(rest, NOTHING.(counts := FirstCounts(counts, n)))
  {
    hide ReadSide, Repeated;
    if n == 0 {
      assert PieceText(counts, 0) + rest == rest;
      assert FirstCounts(counts, 0) == NOTHING.counts;
    } else {
      var more := Repeated(LETTERS[n - 1], counts[n - 1]);
      assert PieceText(counts, n) == PieceText(counts, n - 1) + more;
      assert PieceText(counts, n) + rest == PieceText(counts, n - 1) + (more + rest);
      ReadPieces(counts, n - 1, more + rest);
      var acc := NOTHING.(counts := FirstCounts(counts, n - 1));
      ReadRepeated(n - 1, counts[n - 1], rest, acc);
      assert acc.counts[n - 1 := acc.counts[n - 1] + counts[n - 1]] == FirstCounts(counts, n);
    }
  }

  /** The text that may follow a pawn. */
  predicate NoMark(rest: string) { rest == "" || rest[0] != 'o' }

  lemma ReadPawn(file: nat, opposed: bool, rest: string, acc: Reading)
    requires file < 8 && NoMark(rest)
    ensures ReadSide(PawnMark(file, opposed) + rest, acc) == ReadSide(rest, acc.Pawn(file, opposed))
  {
    var text := PawnMark(file, opposed) + rest;
    assert text[0] == 'P' && text[1] == FileLetter(file);
    assert text[(if opposed then 3 else 2)..] == rest;
    assert LetterIndex('P') == None;
  }

  lemma {:induction false} ReadFile(file: nat, flags: seq<bool>, rest: string, acc: Reading)
    requires file < 8 && NoMark(rest)
    ensures NoMark(FileText(file, flags) + rest)
    ensures ReadSide(FileText(file, flags) + rest, acc)
            == ReadSide(rest, acc.(flags := acc.flags[file := acc.flags[file] + flags]))
    decreases |flags|
  {
    hide ReadSide;
    if flags == [] {
      assert FileText(file, flags) + rest == rest;
      assert acc.flags[file] + [] == acc.flags[file];
      assert acc.(flags := acc.flags[file := acc.flags[file] + flags]) == acc;
    } else {
      var n := |flags| - 1;
      var more := PawnMark(file, flags[n]);
      assert FileText(file, flags) + rest == FileText(file, flags[..n]) + (more + rest);
      ReadFile(file, flags[..n], more + rest, acc);
      var acc' := acc.(flags := acc.flags[file := acc.flags[file] + flags[..n]]);
      ReadPawn(file, flags[n], rest, acc');
      assert acc.flags[file] + flags == acc.flags[file] + flags[..n] + [flags[n]];
      assert acc'.Pawn(file, flags[n]) == acc.(flags := acc.flags[file := acc.flags[file] + flags]);
    }
  }

  function FirstFlags(flags: Flags, n: nat): Flags {
    seq(8, f requires 0 <= f < 8 => if f < n then flags[f] else [])
  }

  lemma NextFlags(flags: Flags, n: nat)
    requires 0 < n <= 8
    ensures var f := FirstFlags(flags, n - 1); f[n - 1 := f[n - 1] + flags[n - 1]] == FirstFlags(flags, n)
  {
    assert [] + flags[n - 1] == flags[n - 1];
  }

  lemma {:induction false} ReadPawns(flags: Flags, n: nat, rest: string, acc: Reading)
    requires n <= 8 && NoMark(rest) && acc.flags == FirstFlags(flags, 0)
    ensures ReadSide(PawnText(flags, n) + rest, acc) == ReadSide(rest, acc.(flags := FirstFlags(flags, n)))
    decreases n
  {
    if n == 0 {
      assert PawnText(flags, 0) + rest == rest;
    } else {
      var more := FileText(n - 1, flags[n - 1]);
      assert PawnText(flags, n) + rest == PawnText(flags, n - 1) + (more + rest);
      var acc' := acc.(flags := FirstFlags(flags, n - 1));
      ReadFile(n - 1, flags[n - 1], rest, acc');
      ReadPawns(flags, n - 1, more + rest, acc);
      NextFlags(flags, n);
    }
  }

  /** A side is read back from its text. */
  lemma ReadBack(counts: Counts, flags: Flags)
    ensures ReadSide(SideText(counts, flags), NOTHING) == Success(Reading(counts, flags))
  {
    hide ReadSide, PieceText, PawnText;
    ReadPieces(counts, 5, PawnText(flags, 8));
    var acc := NOTHING.(counts := FirstCounts(counts, 5));
    assert acc.flags == FirstFlags(flags, 0);
    ReadPawns(flags, 8, "", acc);
    assert PawnText(flags, 8) + "" == PawnText(flags, 8);
    assert FirstCounts(counts, 5) == counts && FirstFlags(flags, 8) == flags;
    ReadNothing(acc.(flags := FirstFlags(flags, 8)));
  }

  lemma ReadNothing(acc: Reading)
    ensures ReadSide("", acc) == Success(acc)
  {
  }

  lemma {:induction false} PiecesHaveNoSeparator(counts: Counts, n: nat)
    requires n <= 5
    ensures '_' !in PieceText(counts, n)
  {
    if n > 0 {
      PiecesHaveNoSeparator(counts, n - 1);
      RepeatedIs(LETTERS[n - 1], counts[n - 1]);
    }
  }

  lemma {:induction false} RepeatedIs(c: char, n: nat)
    ensures forall x | x in Repeated(c, n) :: x == c
  {
    if n > 0 {
      RepeatedIs(c, n - 1);
    }
  }

  lemma {:induction false} FileHasNoSeparator(file: nat, flags: seq<bool>)
    requires file < 8
    ensures '_' !in FileText(file, flags)
  {
    if flags != [] {
      FileHasNoSeparator(file, flags[..|flags| - 1]);
    }
  }

  lemma {:induction false} PawnsHaveNoSeparator(flags: Flags, n: nat)
    requires n <= 8
    ensures '_' !in PawnText(flags, n)
  {
    if n > 0 {
      PawnsHaveNoSeparator(flags, n - 1);
      FileHasNoSeparator(n - 1, flags[n - 1]);
    }
  }

  /** Both sides of a name are read back. */
  lemma NameParts(m: Material, at: nat)
    requires at < |Name(m)| && Name(m)[at] == '_' && '_' !in Name(m)[..at]
    ensures ReadSide(Name(m)[..at], NOTHING) == Success(Reading(m.stm, AllFlags(m.key, SideToMove)))
    ensures ReadSide(Name(m)[at + 1..], NOTHING) == Success(Reading(m.sntm, AllFlags(m.key, SideNotToMove)))
  {
    hide ReadSide, PieceText, PawnText, AllFlags;
    var first, second := SideText(m.stm, AllFlags(m.key, SideToMove)), SideText(m.sntm, AllFlags(m.key, SideNotToMove));
    PiecesHaveNoSeparator(m.stm, 5);
    PawnsHaveNoSeparator(AllFlags(m.key, SideToMove), 8);
    assert '_' !in first;
    SplitIsUnique(first, second, at);
    ReadBack(m.stm, AllFlags(m.key, SideToMove));
    ReadBack(m.sntm, AllFlags(m.key, SideNotToMove));
  }

  lemma SplitIsUnique(first: string, second: string, at: nat)
    requires var name := first + "_" + second; at < |name| && name[at] == '_' && '_' !in name[..at] && '_' !in first
    ensures (first + "_" + second)[..at] == first && (first + "_" + second)[at + 1..] == second
  {
    var name := first + "_" + second;
    assert name[|first|] == '_';
    forall i | 0 <= i < |first| ensures name[i] != '_' {
      assert name[i] == first[i] && first[i] in first;
    }
    forall i | 0 <= i < at ensures name[i] != '_' {
      assert name[i] == name[..at][i];
    }
    assert at == |first|;
  }

  method IndexOfSeparator(name: string) returns (at: Option<nat>)
    ensures at.None? ==> '_' !in name
    ensures at.Some? ==> at.value < |name| && name[at.value] == '_' && '_' !in name[..at.value]
  {
    var i := 0;
    while i < |name|
      invariant 0 <= i <= |name| && '_' !in name[..i]
    {
      if name[i] == '_' {
        return Some(i);
      }
      assert name[..i + 1] == name[..i] + [name[i]];
      i := i + 1;
    }
    assert name[..|name|] == name;
    at := None;
  }

  method ParseSide(text: string) returns (r: Result<Reading, NameError>)
    ensures r == ReadSide(text, NOTHING)
  {
    var rest, acc := text, NOTHING;
    while rest != ""
      invariant ReadSide(rest, acc) == ReadSide(text, NOTHING)
      decreases |rest|
    {
      var k := LetterIndex(rest[0]);
      if k.Some? && k.value < 5 {
        rest, acc := rest[1..], acc.Piece(k.value);
      } else if rest[0] != 'P' {
        return Failure(InvalidPiece);
      } else if |rest| < 2 || !IsFile(rest[1]) {
        return Failure(InvalidFile);
      } else {
        var file := rest[1] as int - 'a' as int;
        var opposed := |rest| > 2 && rest[2] == 'o';
        rest, acc := rest[(if opposed then 3 else 2)..], acc.Pawn(file, opposed);
      }
    }
    r := Success(acc);
  }

  predicate KeyHasFlags(k: Key, stm: Flags, sntm: Flags, n: nat)
    requires n <= 8
  {
    forall f | 0 <= f < n :: |k[f]| <= 6 && HasFlags(k[f], stm[f], sntm[f])
  }

  /** The colour words of all files from the flags of both sides. */
  method ParseKey(stm: Flags, sntm: Flags) returns (r: Result<Key, NameError>)
    ensures r.Success? ==> KeyHasFlags(r.value, stm, sntm, 8)
    ensures forall k: Key | KeyHasFlags(k, stm, sntm, 8) :: r == Success(k)
  {
    var key: Key := [[], [], [], [], [], [], [], []];
    for file := 0 to 8
      invariant KeyHasFlags(key, stm, sntm, file)
      invariant forall k: Key, f | KeyHasFlags(k, stm, sntm, 8) && 0 <= f < file :: k[f] == key[f]
    {
      var len := |stm[file]| + |sntm[file]|;
      if len > 6 {
        forall k: Key ensures |StmFlags(k[file])| + |SntmFlags(k[file])| == |k[file]| {
          FlagCounts(k[file]);
        }
        return Failure(TooManyPawns);
      }
      var order := FindOrder(stm[file], sntm[file]);
      if order.None? {
        forall k: Key ensures KeyHasFlags(k, stm, sntm, 8) ==> HasFlags(k[file], stm[file], sntm[file]) {
        }
        return Failure(InconsistentFlags);
      }
      FlagCounts(order.value);
      key := key[file := order.value];
    }
    forall k: Key | KeyHasFlags(k, stm, sntm, 8) ensures k == key {
      assert forall f | 0 <= f < 8 :: k[f] == key[f];
    }
    r := Success(key);
  }

  /** Accepts exactly the names of materials, and gives the material. */
  method Parse(name: string) returns (r: Result<Material, NameError>)
    ensures r.Success? ==> IsMaterial(r.value) && Name(r.value) == name
    ensures forall m | IsMaterial(m) && Name(m) == name :: r == Success(m)
  {
    hide ReadSide, SideText, Pieces;
    var at := IndexOfSeparator(name);
    if at.None? {
      forall m: Material ensures '_' in Name(m) {
        assert Name(m)[|SideText(m.stm, AllFlags(m.key, SideToMove))|] == '_';
      }
      return Failure(MissingSeparator);
    }
    forall m | IsMaterial(m) && Name(m) == name
      ensures ReadSide(name[..at.value], NOTHING) == Success(Reading(m.stm, AllFlags(m.key, SideToMove)))
      ensures ReadSide(name[at.value + 1..], NOTHING) == Success(Reading(m.sntm, AllFlags(m.key, SideNotToMove)))
    {
      NameParts(m, at.value);
    }
    var stm := ParseSide(name[..at.value]);
    if stm.Failure? {
      return Failure(stm.error);
    }
    if stm.value.counts[0] != 1 {
      return Failure(NotOneKing);
    }
    var sntm := ParseSide(name[at.value + 1..]);
    if sntm.Failure? {
      return Failure(sntm.error);
    }
    if sntm.value.counts[0] != 1 {
      return Failure(NotOneKing);
    }
    forall m | IsMaterial(m) && Name(m) == name ensures KeyHasFlags(m.key, stm.value.flags, sntm.value.flags, 8) {
    }
    var key := ParseKey(stm.value.flags, sntm.value.flags);
    if key.Failure? {
      return Failure(key.error);
    }
    var m := Material(key.value, stm.value.counts, sntm.value.counts);
    if Pieces(m) > 8 {
      return Failure(TooManyPieces);
    }
    if Name(m) != name {
      return Failure(NotCanonical);
    }
    r := Success(m);
  }
}
