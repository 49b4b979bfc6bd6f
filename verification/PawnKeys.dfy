/** The colours of the pawns of each file, and what reflection, change of sides and
    quiet play do to them. */
module PawnKeys {
  import opened Combinadics
  import opened PawnMaps
  import opened Wrappers

  /** Sides of the pawns of a file by ascending rank of the side to move. */
  type ColorWord = seq<Side>

  /** One word per file. */
  type Key = k: seq<ColorWord> | |k| == 8 witness [[], [], [], [], [], [], [], []]

  function Other(s: Side): Side {
    if s == SideToMove then SideNotToMove else SideToMove
  }

  function TwinWord(w: ColorWord): (t: ColorWord)
    ensures |t| == |w|
  {
    seq(|w|, i requires 0 <= i < |w| => Other(w[|w| - 1 - i]))
  }

  function Twin(k: Key): Key {
    seq(8, f requires 0 <= f < 8 => TwinWord(k[f]))
  }

  function Reflected(k: Key): Key {
    seq(8, f requires 0 <= f < 8 => k[7 - f])
  }

  lemma TwinWordTwice(w: ColorWord)
    ensures TwinWord(TwinWord(w)) == w
  {
    var t := TwinWord(w);
    forall i | 0 <= i < |w| ensures TwinWord(t)[i] == w[i] {
      var j := |w| - 1 - i;
      assert TwinWord(t)[i] == Other(t[j]) && t[j] == Other(w[|w| - 1 - j]);
    }
  }

  /** Exchanging the sides twice changes nothing, and commutes with reflection. */
  lemma TwinAlgebra(k: Key)
    ensures Twin(Twin(k)) == k
    ensures Reflected(Reflected(k)) == k
    ensures Twin(Reflected(k)) == Reflected(Twin(k))
  {
    forall f | 0 <= f < 8 ensures TwinWord(TwinWord(k[f])) == k[f] {
      TwinWordTwice(k[f]);
    }
  }

  // ---------------------------------------------------------------------
  // Packed words: a marker bit above one bit per pawn.

  function Bit(s: Side): nat { if s == SideNotToMove then 1 else 0 }

  function Code(w: ColorWord): (c: nat)
    ensures c > 0
  {
    if w == [] then 1 else 2 * Code(w[1..]) + Bit(w[0])
  }

  lemma {:induction false} CodeIsInjective(v: ColorWord, w: ColorWord)
    requires Code(v) == Code(w)
    ensures v == w
  {
    if v != [] && w != [] {
      CodeIsInjective(v[1..], w[1..]);
      assert v == [v[0]] + v[1..] && w == [w[0]] + w[1..];
    }
  }

  lemma {:induction false} CodeHasLength(w: ColorWord)
    ensures Pow2(|w|) <= Code(w) < Pow2(|w| + 1)
  {
    if w != [] {
      CodeHasLength(w[1..]);
    }
  }

  lemma HalfDivides(c: nat, b: nat, p: nat)
    requires b < 2 && p > 0
    ensures (2 * c + b) / (2 * p) == c / p
  {
    var q, r := c / p, c % p;
    assert c == q * p + r;
    assert q * (2 * p) == 2 * (q * p);
    DivideBack(q, 2 * p, 2 * r + b);
  }

  lemma {:induction false} PowersArePositive(n: nat)
    ensures Pow2(n) > 0
  {
    if n > 0 {
      PowersArePositive(n - 1);
    }
  }

  /** The bits of a packed word are the sides of its pawns. */
  lemma {:induction false} BitOfCode(w: ColorWord, i: nat)
    requires i < |w|
    ensures Pow2(i) > 0 && Code(w) / Pow2(i) % 2 == Bit(w[i])
  {
    PowersArePositive(i);
    if i > 0 {
      BitOfCode(w[1..], i - 1);
      HalfDivides(Code(w[1..]), Bit(w[0]), Pow2(i - 1));
    }
  }

  function Upper(w: ColorWord, m: nat): nat
    requires m <= |w|
    decreases |w| - m
  {
    if m == |w| then 0 else Bit(w[m]) * Pow2(m) + Upper(w, m + 1)
  }

  lemma {:induction false} UpperShifts(w: ColorWord, m: nat)
    requires m < |w|
    ensures Upper(w, m + 1) == 2 * Upper(w[1..], m)
    decreases |w| - m
  {
    if m + 1 < |w| {
      UpperShifts(w, m + 1);
    }
  }

  lemma {:induction false} CodeIsSumOfBits(w: ColorWord)
    ensures Code(w) == Pow2(|w|) + Upper(w, 0)
  {
    if w != [] {
      CodeIsSumOfBits(w[1..]);
      UpperShifts(w, 0);
    }
  }

  method Ilog2(word: nat) returns (n: nat)
    requires word > 0
    ensures Pow2(n) <= word < Pow2(n + 1)
  {
    n := 0;
    while Pow2(n + 1) <= word
      invariant Pow2(n) <= word
      decreases word - Pow2(n)
    {
      PowersArePositive(n);
      n := n + 1;
    }
  }

  lemma {:induction false} PowersGrow(m: nat, n: nat)
    requires m <= n
    ensures Pow2(m) <= Pow2(n)
  {
    if m < n {
      PowersGrow(m, n - 1);
    }
  }

  lemma NothingUpper(w: ColorWord)
    ensures Upper(w, |w|) == 0
  {
  }

  lemma TwinBit(w: ColorWord, i: nat)
    requires i < |w|
    ensures Pow2(i) > 0
    ensures Upper(TwinWord(w), |w| - i - 1)
            == Upper(TwinWord(w), |w| - i) + if Code(w) / Pow2(i) % 2 == 0 then Pow2(|w| - 1 - i) else 0
  {
    BitOfCode(w, i);
    assert |w| - 1 - (|w| - 1 - i) == i;
    assert TwinWord(w)[|w| - 1 - i] == Other(w[i]);
  }

  /** Sets the bits of the reversed word with sides exchanged. */
  method TwinPacked(word: nat, ghost w: ColorWord) returns (target: nat)
    requires word == Code(w)
    ensures target == Code(TwinWord(w))
  {
    var len := Ilog2(word);
    CodeHasLength(w);
    if len < |w| {
      PowersGrow(len + 1, |w|);
    } else if |w| < len {
      PowersGrow(|w| + 1, len);
    }
    hide Upper, Pow2, Code, TwinWord;
    NothingUpper(TwinWord(w));
    target := Pow2(len);
    for i := 0 to len
      invariant target == Pow2(len) + Upper(TwinWord(w), len - i)
    {
      TwinBit(w, i);
      if word / Pow2(i) % 2 == 0 {
        target := target + Pow2(len - 1 - i);
      }
    }
    CodeIsSumOfBits(TwinWord(w));
  }

  // ---------------------------------------------------------------------
  // The canonical orientation.

  function Codes(k: Key): seq<nat> {
    seq(8, f requires 0 <= f < 8 => Code(k[f]))
  }

  function CountOf(w: ColorWord, s: Side): nat {
    if w == [] then 0 else CountOf(w[..|w| - 1], s) + if w[|w| - 1] == s then 1 else 0
  }

  function Repeat(f: nat, n: nat): (r: seq<nat>)
    ensures |r| == n
  {
    seq(n, _ => f)
  }

  /** The files of one side's pawns on the first `n` files. */
  function FilesOf(k: Key, s: Side, n: nat): seq<nat>
    requires n <= 8
  {
    if n == 0 then [] else FilesOf(k, s, n - 1) + Repeat(n - 1, CountOf(k[n - 1], s))
  }

  /** The same pawns seen in a mirror, again from the first file on. */
  function MirrorFiles(files: seq<nat>): seq<nat>
    requires forall i | 0 <= i < |files| :: files[i] < 8
  {
    seq(|files|, i requires 0 <= i < |files| => 7 - files[|files| - 1 - i])
  }

  /** The files of the pawns on the last `n` files. */
  function LastFilesOf(k: Key, s: Side, n: nat): seq<nat>
    requires n <= 8
  {
    if n == 0 then [] else Repeat(8 - n, CountOf(k[8 - n], s)) + LastFilesOf(k, s, n - 1)
  }

  lemma {:induction false} FilesSplit(k: Key, s: Side, n: nat)
    requires n <= 8
    ensures FilesOf(k, s, 8) == FilesOf(k, s, 8 - n) + LastFilesOf(k, s, n)
  {
    hide CountOf, Repeat;
    if n > 0 {
      FilesSplit(k, s, n - 1);
      var more := Repeat(8 - n, CountOf(k[8 - n], s));
      assert FilesOf(k, s, 8 - (n - 1)) == FilesOf(k, s, 8 - n) + more;
      assert FilesOf(k, s, 8 - n) + more + LastFilesOf(k, s, n - 1)
             == FilesOf(k, s, 8 - n) + (more + LastFilesOf(k, s, n - 1));
    }
  }

  lemma {:induction false} LastFilesMirror(k: Key, s: Side, n: nat)
    requires n <= 8
    ensures forall i | 0 <= i < |LastFilesOf(k, s, n)| :: LastFilesOf(k, s, n)[i] < 8
    ensures FilesOf(Reflected(k), s, n) == MirrorFiles(LastFilesOf(k, s, n))
  {
    if n > 0 {
      LastFilesMirror(k, s, n - 1);
      var c := CountOf(k[8 - n], s);
      MirrorConcat(Repeat(8 - n, c), LastFilesOf(k, s, n - 1));
      assert MirrorFiles(Repeat(8 - n, c)) == Repeat(n - 1, c);
    }
  }

  lemma MirrorConcat(a: seq<nat>, b: seq<nat>)
    requires forall i | 0 <= i < |a| :: a[i] < 8
    requires forall i | 0 <= i < |b| :: b[i] < 8
    ensures MirrorFiles(a + b) == MirrorFiles(b) + MirrorFiles(a)
  {
  }

  lemma NoFiles(k: Key, s: Side)
    ensures FilesOf(k, s, 0) == []
  {
  }

  /** Reflection mirrors the lists of files. */
  lemma FilesMirror(k: Key, s: Side)
    ensures forall i | 0 <= i < |FilesOf(k, s, 8)| :: FilesOf(k, s, 8)[i] < 8
    ensures FilesOf(Reflected(k), s, 8) == MirrorFiles(FilesOf(k, s, 8))
  {
    hide FilesOf, LastFilesOf;
    FilesSplit(k, s, 8);
    LastFilesMirror(k, s, 8);
    NoFiles(k, s);
    assert FilesOf(k, s, 8) == LastFilesOf(k, s, 8);
  }

  function CompareFiles(k: Key, s: Side): Ordering {
    FilesMirror(k, s);
    CompareLists(FilesOf(k, s, 8), MirrorFiles(FilesOf(k, s, 8)))
  }

  /** The orientation of a key against its reflection. */
  function Orientation(k: Key): Ordering {
    CompareFiles(k, SideToMove).Then(CompareFiles(k, SideNotToMove)).Then(CompareLists(Codes(k), Codes(Reflected(k))))
  }

  /** The representative of a key and its reflection, and whether it is reflected. */
  function Canonicalized(k: Key): (Key, bool) {
    if Orientation(k) != Greater then (k, false) else (Reflected(k), true)
  }

  lemma CodesDiffer(k: Key, l: Key)
    requires Codes(k) == Codes(l)
    ensures k == l
  {
    forall f | 0 <= f < 8 ensures k[f] == l[f] {
      assert Codes(k)[f] == Codes(l)[f];
      CodeIsInjective(k[f], l[f]);
    }
  }

  lemma OrientationReverses(k: Key)
    ensures Orientation(Reflected(k)) == Orientation(k).Reversed()
    ensures Orientation(k) == Equal <==> Reflected(k) == k
  {
    TwinAlgebra(k);
    FilesMirror(k, SideToMove);
    FilesMirror(k, SideNotToMove);
    FilesMirror(Reflected(k), SideToMove);
    FilesMirror(Reflected(k), SideNotToMove);
    ComparisonReverses(FilesOf(k, SideToMove, 8), MirrorFiles(FilesOf(k, SideToMove, 8)));
    ComparisonReverses(FilesOf(k, SideNotToMove, 8), MirrorFiles(FilesOf(k, SideNotToMove, 8)));
    ComparisonReverses(Codes(k), Codes(Reflected(k)));
    if Codes(k) == Codes(Reflected(k)) {
      CodesDiffer(k, Reflected(k));
    }
  }

  /** Exactly one of a key and its reflection is canonical, and it stands for both. */
  lemma CanonicalizedPicksOne(k: Key)
    ensures Canonicalized(k).0 == Canonicalized(Reflected(k)).0
    ensures Canonicalized(Canonicalized(k).0) == (Canonicalized(k).0, false)
    ensures Canonicalized(k).0 == if Canonicalized(k).1 then Reflected(k) else k
    ensures !Canonicalized(k).1 && !Canonicalized(Reflected(k)).1 <==> Reflected(k) == k
  {
    OrientationReverses(k);
    TwinAlgebra(k);
  }

  /** The canonical key is the smaller of a key and its reflection: by the files of the
      pawns of the side to move, then by those of the other side, then by the packed words. */
  lemma CanonicalIsLeast(k: Key)
    ensures var c := Canonicalized(k).0;
            var r := Reflected(c);
            var (m, n) := (FilesOf(c, SideToMove, 8), FilesOf(c, SideNotToMove, 8));
            var (m', n') := (FilesOf(r, SideToMove, 8), FilesOf(r, SideNotToMove, 8));
            && (c == k || c == Reflected(k))
            && (|| ComesBefore(m, m')
                || (m == m' && ComesBefore(n, n'))
                || (m == m' && n == n' && (ComesBefore(Codes(c), Codes(r)) || c == r)))
  {
    hide FilesOf, MirrorFiles, CompareLists, ComesBefore, Codes, Reflected, CountOf;
    var c := Canonicalized(k).0;
    var r := Reflected(c);
    CanonicalizedPicksOne(k);
    OrientationReverses(c);
    FilesMirror(c, SideToMove);
    FilesMirror(c, SideNotToMove);
    Ordered(FilesOf(c, SideToMove, 8), FilesOf(r, SideToMove, 8));
    Ordered(FilesOf(c, SideNotToMove, 8), FilesOf(r, SideNotToMove, 8));
    Ordered(Codes(c), Codes(r));
  }

  /** A lone pawn is canonical on the files a to d, and seen on them in the mirror else. */
  lemma LonePawn(k: Key, f: nat, s: Side)
    requires f < 8 && k[f] == [s] && forall g | 0 <= g < 8 && g != f :: k[g] == []
    ensures Canonicalized(k).1 <==> f > 3
    ensures var c := Canonicalized(k).0;
            var home := if f > 3 then 7 - f else f;
            home <= 3 && c[home] == [s] && forall g | 0 <= g < 8 && g != home :: c[g] == []
  {
    hide CompareLists, FilesOf, Codes, MirrorFiles, CountOf;
    LonePawnFiles(k, f, s, 8);
    FilesMirror(k, SideToMove);
    FilesMirror(k, SideNotToMove);
    MirrorOfOne(f);
    CompareOne(f, 7 - f);
    ComparisonReverses([], []);
    assert Reflected(k)[7 - f] == [s];
  }

  lemma MirrorOfOne(f: nat)
    requires f < 8
    ensures MirrorFiles([f]) == [7 - f] && MirrorFiles([]) == []
  {
  }

  lemma CompareOne(a: nat, b: nat)
    ensures CompareLists([a], [b]) == if a < b then Less else if a > b then Greater else Equal
  {
  }

  lemma CountOfOne(s: Side)
    ensures CountOf([], s) == CountOf([], Other(s)) == CountOf([s], Other(s)) == 0 && CountOf([s], s) == 1
  {
    assert [s][..0] == [];
  }

  lemma {:induction false} LonePawnFiles(k: Key, f: nat, s: Side, n: nat)
    requires f < 8 && k[f] == [s] && (forall g | 0 <= g < 8 && g != f :: k[g] == []) && n <= 8
    ensures FilesOf(k, s, n) == if f < n then [f] else []
    ensures FilesOf(k, Other(s), n) == []
  {
    if n > 0 {
      LonePawnFiles(k, f, s, n - 1);
      CountOfOne(s);
      assert n - 1 == f ==> Repeat(n - 1, 1) == [f];
    }
  }

  // ---------------------------------------------------------------------
  // Quiet play.

  /** The pawns of a file by rank. */
  type FilePawns = o: seq<Option<Side>> | |o| == 8 witness [None, None, None, None, None, None, None, None]

  function WordUpTo(o: FilePawns, n: nat): ColorWord
    requires n <= 8
  {
    if n == 0 then []
    else WordUpTo(o, n - 1) + if o[n - 1].Some? then [o[n - 1].value] else []
  }

  function WordOf(o: FilePawns): ColorWord { WordUpTo(o, 8) }

  /** The same pawns seen by the other side. */
  function Turned(o: FilePawns): FilePawns {
    seq(8, r requires 0 <= r < 8 => if o[7 - r].Some? then Some(Other(o[7 - r].value)) else None)
  }

  function WordFrom(o: FilePawns, n: nat): ColorWord
    requires n <= 8
  {
    if n == 0 then []
    else (if o[8 - n].Some? then [o[8 - n].value] else []) + WordFrom(o, n - 1)
  }

  lemma {:induction false} WordSplits(o: FilePawns, n: nat)
    requires n <= 8
    ensures WordOf(o) == WordUpTo(o, 8 - n) + WordFrom(o, n)
  {
    if n > 0 {
      WordSplits(o, n - 1);
    }
  }

  lemma {:induction false} TurnedWord(o: FilePawns, n: nat)
    requires n <= 8
    ensures WordUpTo(Turned(o), n) == TwinWord(WordFrom(o, n))
  {
    if n > 0 {
      TurnedWord(o, n - 1);
      TwinConcat(if o[8 - n].Some? then [o[8 - n].value] else [], WordFrom(o, n - 1));
    }
  }

  lemma TwinConcat(a: ColorWord, b: ColorWord)
    ensures TwinWord(a + b) == TwinWord(b) + TwinWord(a)
  {
  }

  /** The word of a file seen by the other side is the twin word. */
  lemma TurnedIsTwin(o: FilePawns)
    ensures WordOf(Turned(o)) == TwinWord(WordOf(o))
  {
    hide WordFrom, TwinWord;
    TurnedWord(o, 8);
    WordSplits(o, 8);
    assert WordUpTo(o, 0) == [];
    assert WordOf(o) == WordFrom(o, 8);
  }

  /** A pawn moves up one or more squares that are all empty. */
  predicate IsPush(o: FilePawns, from: nat, to: nat, o': FilePawns) {
    && from < to < 8 && o[from].Some?
    && (forall r | from < r <= to :: o[r].None?)
    && o' == o[from := None][to := o[from]]
  }

  lemma {:induction false} PushKeepsWord(o: FilePawns, from: nat, to: nat, o': FilePawns, n: nat)
    requires IsPush(o, from, to, o') && n <= 8
    ensures n <= from ==> WordUpTo(o', n) == WordUpTo(o, n)
    ensures from < n <= to ==> WordUpTo(o', n) + [o[from].value] == WordUpTo(o, n)
    ensures to < n ==> WordUpTo(o', n) == WordUpTo(o, n)
  {
    if n > 0 {
      PushKeepsWord(o, from, to, o', n - 1);
    }
  }

  const EMPTY_FILE: FilePawns := [None, None, None, None, None, None, None, None]

  type Pawns = p: seq<FilePawns> | |p| == 8
    witness [EMPTY_FILE, EMPTY_FILE, EMPTY_FILE, EMPTY_FILE, EMPTY_FILE, EMPTY_FILE, EMPTY_FILE, EMPTY_FILE]

  function KeyOf(p: Pawns): Key {
    seq(8, f requires 0 <= f < 8 => WordOf(p[f]))
  }

  function TurnedPawns(p: Pawns): Pawns {
    seq(8, f requires 0 <= f < 8 => Turned(p[f]))
  }

  /** A quiet move pushes one pawn on its file, or leaves the pawns where they are. */
  ghost predicate IsQuiet(p: Pawns, p': Pawns) {
    p' == p || exists f, from: nat, to: nat :: 0 <= f < 8 && PushesOn(p, f, from, to, p')
  }

  predicate PushesOn(p: Pawns, f: int, from: nat, to: nat, p': Pawns)
    requires 0 <= f < 8
  {
    IsPush(p[f], from, to, p'[f]) && p' == p[f := p'[f]]
  }

  /** Quiet play alternates between a key and its twin. */
  lemma QuietMovesTwin(p: Pawns, p': Pawns)
    requires IsQuiet(p, p')
    ensures KeyOf(TurnedPawns(p')) == Twin(KeyOf(p))
  {
    if p' != p {
      var f, from: nat, to: nat :| 0 <= f < 8 && PushesOn(p, f, from, to, p');
      PushKeepsWord(p[f], from, to, p'[f], 8);
    }
    forall f | 0 <= f < 8 ensures WordOf(p'[f]) == WordOf(p[f]) && WordOf(Turned(p'[f])) == TwinWord(WordOf(p[f])) {
      TurnedIsTwin(p'[f]);
    }
  }

  // ---------------------------------------------------------------------
  // Opposing pairs.

  /** Pawns of the side to move that face an enemy pawn, on the first `n` slots. */
  function Facing(w: ColorWord, n: nat): nat
    requires n <= |w|
  {
    if n == 0 then 0 else Facing(w, n - 1) + if n < |w| && w[n - 1] == SideToMove && w[n] == SideNotToMove then 1 else 0
  }

  function PairsIn(w: ColorWord): nat { Facing(w, |w|) }

  lemma {:induction false} FacingPrefix(w: ColorWord, x: Side, n: nat)
    requires n <= |w|
    ensures Facing(w + [x], n)
            == Facing(w, n) + if n == |w| > 0 && w[|w| - 1] == SideToMove && x == SideNotToMove then 1 else 0
  {
    if n > 0 {
      FacingPrefix(w, x, n - 1);
    }
  }

  /** Promoting the highest pawn of a file without capture keeps the pairs. */
  lemma PromotionKeepsPairs(w: ColorWord)
    ensures PairsIn(w + [SideToMove]) == PairsIn(w)
  {
    FacingPrefix(w, SideToMove, |w|);
    assert Facing(w + [SideToMove], |w| + 1) == Facing(w + [SideToMove], |w|);
  }
}
