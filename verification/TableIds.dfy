/** Identities of tables: canonical orientation, twins, and the groups they are
    generated in. */
module TableIds {
  import opened PawnKeys
  import opened PawnMaps
  import opened TableNames
  import opened Wrappers

  /** Material in its canonical horizontal orientation. */
  predicate IsTable(m: Material) {
    IsMaterial(m) && !Canonicalized(m.key).1
  }

  /** Different materials have different names. */
  lemma NamesAreDistinct(m: Material, n: Material)
    requires Name(m) == Name(n)
    ensures m == n
  {
    hide ReadSide, AllFlags, Name;
    var at := SeparatorOf(m);
    NameParts(m, at);
    NameParts(n, at);
    FlagsDetermineKey(m.key, n.key);
  }

  lemma SeparatorOf(m: Material) returns (at: nat)
    ensures at < |Name(m)| && Name(m)[at] == '_' && '_' !in Name(m)[..at]
  {
    hide PieceText, PawnText, AllFlags;
    var side := SideText(m.stm, AllFlags(m.key, SideToMove));
    at := |side|;
    PiecesHaveNoSeparator(m.stm, 5);
    PawnsHaveNoSeparator(AllFlags(m.key, SideToMove), 8);
    assert Name(m)[..at] == side;
  }

  lemma FlagsDetermineKey(k: Key, l: Key)
    requires AllFlags(k, SideToMove) == AllFlags(l, SideToMove)
             && AllFlags(k, SideNotToMove) == AllFlags(l, SideNotToMove)
    ensures k == l
  {
    hide StmFlags, SntmFlags;
    forall f | 0 <= f < 8 ensures k[f] == l[f] {
      assert AllFlags(k, SideToMove)[f] == AllFlags(l, SideToMove)[f];
      assert AllFlags(k, SideNotToMove)[f] == AllFlags(l, SideNotToMove)[f];
      FlagsDetermineWord(k[f], l[f]);
    }
  }

  /** Accepts exactly the names of tables. */
  method ParseTable(name: string) returns (r: Result<Material, NameError>)
    ensures r.Success? ==> IsTable(r.value) && Name(r.value) == name
    ensures forall m | IsTable(m) && Name(m) == name :: r == Success(m)
  {
    r := Parse(name);
    if r.Success? && Canonicalized(r.value.key).1 {
      r := Failure(NotCanonical);
    }
  }

  // ---------------------------------------------------------------------
  // The name, letter by letter.

  method FormatPieces(prefix: string, counts: Counts) returns (name: string)
    ensures name == prefix + PieceText(counts, 5)
  {
    hide Repeated;
    name := prefix;
    for k := 0 to 5
      invariant name == prefix + PieceText(counts, k)
    {
      var letters := RepeatLetter(LETTERS[k], counts[k]);
      assert PieceText(counts, k + 1) == PieceText(counts, k) + letters;
      name := name + letters;
    }
  }

  method RepeatLetter(c: char, count: nat) returns (letters: string)
    ensures letters == Repeated(c, count)
  {
    letters := "";
    for n := 0 to count
      invariant letters == Repeated(c, n)
    {
      letters := letters + [c];
    }
  }

  lemma NoFlags(w: ColorWord)
    ensures FlagsUpTo(w, 0) == []
  {
  }

  lemma NextFlag(w: ColorWord, n: nat)
    requires n < |w|
    ensures FlagsUpTo(w, n + 1) == FlagsUpTo(w, n) + if w[n] == SideToMove then [IsFacing(w, n)] else []
  {
  }

  lemma NextMark(file: nat, flags: seq<bool>, flag: bool)
    requires file < 8
    ensures FileText(file, flags + [flag]) == FileText(file, flags) + PawnMark(file, flag)
  {
    assert (flags + [flag])[..|flags|] == flags;
  }

  lemma NoMarks(file: nat, prefix: string)
    requires file < 8
    ensures prefix + FileText(file, []) == prefix
  {
  }

  /** The pawns of one side on a file, in its direction of play. */
  method FormatFile(prefix: string, file: nat, word: ColorWord, stm: bool) returns (name: string)
    requires file < 8
    ensures name == prefix + FileText(file, if stm then StmFlags(word) else SntmFlags(word))
  {
    hide FileText, FlagsUpTo;
    name := prefix;
    NoMarks(file, prefix);
    var len := |word|;
    ghost var w := if stm then word else TwinWord(word);
    NoFlags(w);
    for slot := 0 to len
      invariant name == prefix + FileText(file, FlagsUpTo(w, slot))
    {
      var i := if stm then slot else len - 1 - slot;
      NextFlag(w, slot);
      assert w[slot] == if stm then word[i] else Other(word[i]);
      assert slot + 1 < len ==> w[slot + 1] == if stm then word[i + 1] else Other(word[i - 1]);
      if (word[i] == SideToMove) == stm {
        var opposed := if stm then i + 1 < len && word[i + 1] == SideNotToMove else i > 0 && word[i - 1] == SideToMove;
        assert opposed == IsFacing(w, slot);
        NextMark(file, FlagsUpTo(w, slot), opposed);
        name := name + ['P', FileLetter(file)];
        if opposed {
          name := name + ['o'];
        }
        assert name == prefix + (FileText(file, FlagsUpTo(w, slot)) + PawnMark(file, opposed));
      } else {
        assert FlagsUpTo(w, slot + 1) == FlagsUpTo(w, slot);
      }
    }
  }

  method FormatSide(prefix: string, counts: Counts, key: Key, stm: bool) returns (name: string)
    ensures name == prefix + SideText(counts, AllFlags(key, if stm then SideToMove else SideNotToMove))
  {
    hide FileText, PieceText, StmFlags, SntmFlags;
    name := FormatPieces(prefix, counts);
    ghost var flags := AllFlags(key, if stm then SideToMove else SideNotToMove);
    for file := 0 to 8
      invariant name == prefix + PieceText(counts, 5) + PawnText(flags, file)
    {
      name := FormatFile(name, file, key[file], stm);
    }
  }

  method FormatName(m: Material) returns (name: string)
    ensures name == Name(m)
  {
    hide SideText, AllFlags;
    name := FormatSide("", m.stm, m.key, true);
    name := name + ['_'];
    name := FormatSide(name, m.sntm, m.key, false);
  }

  // ---------------------------------------------------------------------
  // Groups of tables.

  /** The pawns of one side on the first `n` files. */
  function SidePawns(k: Key, s: Side, n: nat): nat
    requires n <= 8
  {
    if n == 0 then 0 else SidePawns(k, s, n - 1) + CountOf(k[n - 1], s)
  }

  function StmPieces(m: Material): nat { Sum(m.stm) + SidePawns(m.key, SideToMove, 8) }

  function SntmPieces(m: Material): nat { Sum(m.sntm) + SidePawns(m.key, SideNotToMove, 8) }

  /** Opposing pairs on the first `n` files, counted by the marks of the side to move. */
  function OpposingPairs(k: Key, n: nat): nat
    requires n <= 8
  {
    if n == 0 then 0 else OpposingPairs(k, n - 1) + Marks(StmFlags(k[n - 1]))
  }

  /** What tables generated together share: pieces of the stronger and the weaker
      side, opposing pairs, and pawns. */
  datatype Group = Group(max: nat, min: nat, pairs: nat, pawns: nat)

  function GroupOf(m: Material): Group {
    var a, b := StmPieces(m), SntmPieces(m);
    Group(if a < b then b else a, if a < b then a else b, OpposingPairs(m.key, 8), PawnsOn(m.key, 8))
  }

  /** The table after a quiet move, and whether its files are reflected. */
  function TwinTable(m: Material): (Material, bool) {
    var (key, reflected) := Canonicalized(Twin(m.key));
    (Material(key, m.sntm, m.stm), reflected)
  }

  lemma {:induction false} CountSplits(w: ColorWord)
    ensures CountOf(w, SideToMove) + CountOf(w, SideNotToMove) == |w|
  {
    if w != [] {
      CountSplits(w[..|w| - 1]);
    }
  }

  lemma {:induction false} CountTail(w: ColorWord, s: Side)
    requires w != []
    ensures CountOf(w, s) == CountOf(w[1..], s) + if w[0] == s then 1 else 0
  {
    if |w| > 1 {
      CountTail(w[..|w| - 1], s);
      assert w[..|w| - 1][1..] == w[1..][..|w| - 2];
    }
  }

  lemma {:induction false} TwinCounts(w: ColorWord, s: Side)
    ensures CountOf(TwinWord(w), s) == CountOf(w, Other(s))
  {
    if w != [] {
      TwinOfTail(w);
      TwinCounts(w[1..], s);
      CountTail(w, Other(s));
      assert TwinWord(w)[..|w| - 1] == TwinWord(w[1..]);
    }
  }

  /** Counts of a key on the first files. */
  lemma {:induction false} TwinKeyCounts(k: Key, n: nat)
    requires n <= 8
    ensures SidePawns(Twin(k), SideToMove, n) == SidePawns(k, SideNotToMove, n)
    ensures SidePawns(Twin(k), SideNotToMove, n) == SidePawns(k, SideToMove, n)
    ensures OpposingPairs(Twin(k), n) == OpposingPairs(k, n) && PawnsOn(Twin(k), n) == PawnsOn(k, n)
  {
    if n > 0 {
      TwinKeyCounts(k, n - 1);
      TwinCounts(k[n - 1], SideToMove);
      TwinCounts(k[n - 1], SideNotToMove);
      SidesAreMarkedAlike(k[n - 1]);
    }
  }

  /** The last files of a key are the first of its reflection. */
  lemma {:induction false} ReflectedCounts(k: Key, s: Side, n: nat)
    requires n <= 8
    ensures SidePawns(k, s, 8) == SidePawns(k, s, 8 - n) + SidePawns(Reflected(k), s, n)
    ensures OpposingPairs(k, 8) == OpposingPairs(k, 8 - n) + OpposingPairs(Reflected(k), n)
    ensures PawnsOn(k, 8) == PawnsOn(k, 8 - n) + PawnsOn(Reflected(k), n)
  {
    if n > 0 {
      ReflectedCounts(k, s, n - 1);
    }
  }

  lemma ReflectedKeepsCounts(k: Key)
    ensures SidePawns(Reflected(k), SideToMove, 8) == SidePawns(k, SideToMove, 8)
    ensures SidePawns(Reflected(k), SideNotToMove, 8) == SidePawns(k, SideNotToMove, 8)
    ensures OpposingPairs(Reflected(k), 8) == OpposingPairs(k, 8) && PawnsOn(Reflected(k), 8) == PawnsOn(k, 8)
  {
    ReflectedCounts(k, SideToMove, 8);
    ReflectedCounts(k, SideNotToMove, 8);
  }

  lemma TwinTableKeepsGroup(m: Material)
    ensures GroupOf(TwinTable(m).0) == GroupOf(m)
    ensures PawnsOn(TwinTable(m).0.key, 8) == PawnsOn(m.key, 8)
  {
    hide Canonicalized, OpposingPairs, SidePawns, PawnsOn, Sum;
    CanonicalizedPicksOne(Twin(m.key));
    TwinKeyCounts(m.key, 8);
    ReflectedKeepsCounts(Twin(m.key));
  }

  lemma TwinTableIsTable(m: Material)
    requires IsMaterial(m)
    ensures IsTable(TwinTable(m).0)
  {
    hide Canonicalized, PawnsOn, Sum;
    CanonicalizedPicksOne(Twin(m.key));
    TwinTableKeepsGroup(m);
    var t := TwinTable(m).0;
    forall f | 0 <= f < 8 ensures |t.key[f]| <= 6 {
      assert t.key[f] == Twin(m.key)[f] || t.key[f] == Twin(m.key)[7 - f];
    }
  }

  /** The twin of a table is a table of the same group, and its twin is the table. */
  lemma TwinTableTwice(m: Material)
    requires IsTable(m)
    ensures IsTable(TwinTable(m).0) && GroupOf(TwinTable(m).0) == GroupOf(m)
    ensures TwinTable(TwinTable(m).0).0 == m
  {
    hide Canonicalized, IsMaterial, GroupOf;
    TwinTableIsTable(m);
    TwinTableKeepsGroup(m);
    TwinAlgebra(m.key);
    TwinAlgebra(Twin(m.key));
    CanonicalizedPicksOne(Twin(m.key));
    CanonicalizedPicksOne(m.key);
  }

  // ---------------------------------------------------------------------
  // Promotions.

  /** A promotion without capture takes the top pawn of file `f`, a pawn of the side
      to move, and adds a piece of kind `role`. */
  function Promoted(m: Material, f: nat, role: nat): Material
    requires f < 8 && 0 < role < 5 && m.key[f] != []
  {
    Material(m.key[f := m.key[f][..|m.key[f]| - 1]], m.stm[role := m.stm[role] + 1], m.sntm)
  }

  lemma {:induction false} SumWith(s: seq<nat>, k: nat, x: nat)
    requires k < |s|
    ensures Sum(s[k := s[k] + x]) == Sum(s) + x
  {
    var n := |s| - 1;
    if k < n {
      SumWith(s[..n], k, x);
      assert s[k := s[k] + x][..n] == s[..n][k := s[k] + x];
    } else {
      assert s[k := s[k] + x][..n] == s[..n];
    }
  }

  lemma {:induction false} PromotedCounts(k: Key, f: nat, n: nat)
    requires f < 8 && n <= 8 && k[f] != [] && k[f][|k[f]| - 1] == SideToMove
    ensures var l := k[f := k[f][..|k[f]| - 1]];
            && SidePawns(k, SideToMove, n) == SidePawns(l, SideToMove, n) + (if f < n then 1 else 0)
            && SidePawns(k, SideNotToMove, n) == SidePawns(l, SideNotToMove, n)
            && OpposingPairs(k, n) == OpposingPairs(l, n)
            && PawnsOn(k, n) == PawnsOn(l, n) + if f < n then 1 else 0
  {
    if n > 0 {
      PromotedCounts(k, f, n - 1);
      if f == n - 1 {
        var w := k[f][..|k[f]| - 1];
        assert k[f] == w + [SideToMove];
        PromotionKeepsPairs(w);
        SidesAreMarkedAlike(w);
        SidesAreMarkedAlike(k[f]);
      }
    }
  }

  /** The table a promotion leads to has the same pieces and opposing pairs and one
      pawn less. */
  lemma PromotionStaysInGroup(m: Material, f: nat, role: nat)
    requires IsMaterial(m) && f < 8 && 0 < role < 5 && m.key[f] != [] && m.key[f][|m.key[f]| - 1] == SideToMove
    ensures var t := TwinTable(Promoted(m, f, role)).0;
            && IsTable(t) && GroupOf(m).pawns > 0
            && GroupOf(t) == GroupOf(m).(pawns := GroupOf(m).pawns - 1)
            && StmPieces(t) + SntmPieces(t) == StmPieces(m) + SntmPieces(m)
  {
    hide Canonicalized, OpposingPairs, SidePawns, PawnsOn, Sum;
    PromotedCounts(m.key, f, 8);
    SumWith(m.stm, role, 1);
    var p := Promoted(m, f, role);
    TwinTableIsTable(p);
    TwinTableKeepsGroup(p);
  }
}
