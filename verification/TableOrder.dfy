/** The order tables are selected and generated in: pieces, pawns, the name by
    pieces with its marks dropped, and last the elements. */
module TableOrder {
  import opened PawnKeys
  import opened PawnMaps
  import opened TableIds
  import opened TableNames
  import opened Wrappers

  // ---------------------------------------------------------------------
  // What a name tells.

  predicate IsUpper(c: char) { 'A' <= c <= 'Z' }

  /** Upper-case letters of a name: one for each piece. */
  function UpperLetters(name: string): nat {
    if name == "" then 0 else UpperLetters(name[..|name| - 1]) + if IsUpper(name[|name| - 1]) then 1 else 0
  }

  function PawnLetters(name: string): nat {
    if name == "" then 0 else PawnLetters(name[..|name| - 1]) + if name[|name| - 1] == 'P' then 1 else 0
  }

  function LetterKey(c: char): nat {
    match c
    case 'K' => 0
    case 'Q' => 1
    case 'R' => 2
    case 'B' => 3
    case 'N' => 4
    case 'P' => 5
    case _ => c as int
  }

  /** Pieces sort from kings to knights, pawns after them, and their files from a to h. */
  lemma LettersSort(f: nat, g: nat)
    requires f < g < 8
    ensures LetterKey('K') < LetterKey('Q') < LetterKey('R') < LetterKey('B') < LetterKey('N') < LetterKey('P')
    ensures LetterKey('P') < LetterKey('_') < LetterKey(FileLetter(f)) < LetterKey(FileLetter(g))
  {
  }

  /** The letters of a name as numbers, without the marks. */
  function NameKey(name: string): seq<nat> {
    if name == "" then []
    else NameKey(name[..|name| - 1]) + if name[|name| - 1] == 'o' then [] else [LetterKey(name[|name| - 1])]
  }

  lemma {:induction false} LettersConcat(a: string, b: string)
    ensures UpperLetters(a + b) == UpperLetters(a) + UpperLetters(b)
    ensures PawnLetters(a + b) == PawnLetters(a) + PawnLetters(b)
  {
    if b == "" {
      assert a + b == a;
    } else {
      LettersConcat(a, b[..|b| - 1]);
      assert (a + b)[..|a + b| - 1] == a + b[..|b| - 1];
    }
  }

  lemma {:induction false} LettersRepeated(c: char, n: nat)
    requires IsUpper(c) && c != 'P'
    ensures UpperLetters(Repeated(c, n)) == n && PawnLetters(Repeated(c, n)) == 0
  {
    if n > 0 {
      LettersRepeated(c, n - 1);
      assert Repeated(c, n)[..n - 1] == Repeated(c, n - 1) by {
        RepeatedLength(c, n - 1);
      }
      RepeatedLength(c, n);
    }
  }

  lemma {:induction false} RepeatedLength(c: char, n: nat)
    ensures |Repeated(c, n)| == n
  {
    if n > 0 {
      RepeatedLength(c, n - 1);
    }
  }

  lemma NoLetters()
    ensures UpperLetters("") == 0 && PawnLetters("") == 0
  {
  }

  lemma {:induction false} LettersOfPieces(counts: Counts, n: nat)
    requires n <= 5
    ensures UpperLetters(PieceText(counts, n)) == Sum(counts[..n]) && PawnLetters(PieceText(counts, n)) == 0
  {
    hide Repeated, UpperLetters, PawnLetters;
    if n == 0 {
      NoLetters();
    } else {
      LettersOfPieces(counts, n - 1);
      LettersRepeated(LETTERS[n - 1], counts[n - 1]);
      LettersConcat(PieceText(counts, n - 1), Repeated(LETTERS[n - 1], counts[n - 1]));
      assert counts[..n][..n - 1] == counts[..n - 1];
    }
  }

  lemma LettersOfMark(file: nat, opposed: bool)
    requires file < 8
    ensures UpperLetters(PawnMark(file, opposed)) == 1 && PawnLetters(PawnMark(file, opposed)) == 1
  {
    var p: string := ['P'];
    var f: string := [FileLetter(file)];
    assert p[..0] == "" && f[..0] == "" && "o"[..0] == "";
    LettersConcat(p, f);
    assert ['P', FileLetter(file)] == p + f;
    LettersConcat(p + f, if opposed then "o" else "");
  }

  lemma {:induction false} LettersOfFile(file: nat, flags: seq<bool>)
    requires file < 8
    ensures UpperLetters(FileText(file, flags)) == PawnLetters(FileText(file, flags)) == |flags|
  {
    if flags != [] {
      var n := |flags| - 1;
      LettersOfFile(file, flags[..n]);
      LettersOfMark(file, flags[n]);
      LettersConcat(FileText(file, flags[..n]), PawnMark(file, flags[n]));
    }
  }

  /** Marks are dropped from the key of a name, and every other letter keeps its place. */
  lemma {:induction false} MarksAreDropped(x: string, c: char, y: string)
    ensures NameKey(x + [c] + y) == NameKey(x) + (if c == 'o' then [] else [LetterKey(c)]) + NameKey(y)
  {
    var name := x + [c] + y;
    if y == "" {
      assert name[..|name| - 1] == x;
    } else {
      MarksAreDropped(x, c, y[..|y| - 1]);
      assert name[..|name| - 1] == x + [c] + y[..|y| - 1];
    }
  }

  function FlagCount(flags: Flags, n: nat): nat
    requires n <= 8
  {
    if n == 0 then 0 else FlagCount(flags, n - 1) + |flags[n - 1]|
  }

  lemma {:induction false} LettersOfPawns(flags: Flags, n: nat)
    requires n <= 8
    ensures UpperLetters(PawnText(flags, n)) == PawnLetters(PawnText(flags, n)) == FlagCount(flags, n)
  {
    if n > 0 {
      LettersOfPawns(flags, n - 1);
      LettersOfFile(n - 1, flags[n - 1]);
      LettersConcat(PawnText(flags, n - 1), FileText(n - 1, flags[n - 1]));
    }
  }

  lemma {:induction false} FlagsOfPawns(k: Key, n: nat)
    requires n <= 8
    ensures FlagCount(AllFlags(k, SideToMove), n) + FlagCount(AllFlags(k, SideNotToMove), n) == PawnsOn(k, n)
  {
    if n > 0 {
      FlagsOfPawns(k, n - 1);
      FlagCounts(k[n - 1]);
    }
  }

  lemma LettersOfSide(counts: Counts, flags: Flags)
    ensures UpperLetters(SideText(counts, flags)) == Sum(counts) + FlagCount(flags, 8)
    ensures PawnLetters(SideText(counts, flags)) == FlagCount(flags, 8)
  {
    LettersOfPieces(counts, 5);
    assert counts[..5] == counts;
    LettersOfPawns(flags, 8);
    LettersConcat(PieceText(counts, 5), PawnText(flags, 8));
  }

  /** Counting letters of the name counts pieces and pawns. */
  lemma LettersAreCounts(m: Material)
    ensures UpperLetters(Name(m)) == Pieces(m) && PawnLetters(Name(m)) == PawnsOn(m.key, 8)
  {
    hide SideText, PawnText, PieceText, UpperLetters, PawnLetters;
    var first := SideText(m.stm, AllFlags(m.key, SideToMove));
    var second := SideText(m.sntm, AllFlags(m.key, SideNotToMove));
    LettersOfSide(m.stm, AllFlags(m.key, SideToMove));
    LettersOfSide(m.sntm, AllFlags(m.key, SideNotToMove));
    FlagsOfPawns(m.key, 8);
    LettersConcat(first, "_");
    SeparatorIsNoLetter();
    LettersConcat(first + "_", second);
  }

  lemma SeparatorIsNoLetter()
    ensures UpperLetters("_") == 0 && PawnLetters("_") == 0
  {
    assert "_"[..0] == "";
  }

  // ---------------------------------------------------------------------
  // Elements.

  /** Pawns of a file by rank, or equal pieces of a side; roles in the order KQRBN. */
  datatype Element =
    | PawnFile(file: nat, order: ColorWord)
    | PieceGroup(role: nat, side: Side, multiplicity: nat)

  function Bits(w: ColorWord): (b: seq<nat>)
    ensures |b| == |w|
  {
    seq(|w|, i requires 0 <= i < |w| => Bit(w[i]))
  }

  function CompareElement(a: Element, b: Element): Ordering {
    match (a, b)
    case (PawnFile(f, x), PawnFile(g, y)) => CompareNat(f, g).Then(CompareLists(Bits(x), Bits(y)))
    case (PawnFile(_, _), PieceGroup(_, _, _)) => Less
    case (PieceGroup(_, _, _), PawnFile(_, _)) => Greater
    case (PieceGroup(r, x, m), PieceGroup(s, y, n)) =>
      CompareNat(r, s).Then(CompareNat(Bit(x), Bit(y))).Then(CompareNat(m, n))
  }

  /** Equally many pawns on a file are compared at the lowest one whose side differs; the
      word where it is the side to move's comes first. */
  lemma PawnFilesCompare(f: nat, x: ColorWord, y: ColorWord)
    requires |x| == |y|
    ensures CompareElement(PawnFile(f, x), PawnFile(f, y)) == Less
            <==> exists i :: 0 <= i < |x| && x[..i] == y[..i] && x[i] == SideToMove && y[i] == SideNotToMove
  {
    Ordered(Bits(x), Bits(y));
    forall i: nat | i <= |x| ensures Bits(x)[..i] == Bits(y)[..i] <==> x[..i] == y[..i] {
      SameBits(x, y, i);
    }
    forall i: nat | i < |x| && x[..i] == y[..i] && x[i] == SideToMove && y[i] == SideNotToMove
      ensures ComesBeforeAt(Bits(x), Bits(y), i)
    {
    }
  }

  lemma SameBits(x: ColorWord, y: ColorWord, n: nat)
    requires n <= |x| && n <= |y|
    ensures Bits(x)[..n] == Bits(y)[..n] <==> x[..n] == y[..n]
  {
    if Bits(x)[..n] == Bits(y)[..n] {
      forall i | 0 <= i < n ensures x[i] == y[i] {
        assert Bits(x)[..n][i] == Bits(y)[..n][i];
      }
    }
    if x[..n] == y[..n] {
      forall i | 0 <= i < n ensures Bits(x)[i] == Bits(y)[i] {
        assert x[..n][i] == y[..n][i];
      }
    }
  }

  function CompareElements(a: seq<Element>, b: seq<Element>): Ordering {
    if a == [] && b == [] then Equal
    else if a == [] then Less
    else if b == [] then Greater
    else CompareElement(a[0], b[0]).Then(CompareElements(a[1..], b[1..]))
  }

  function PawnElements(k: Key, n: nat): seq<Element>
    requires n <= 8
  {
    if n == 0 then [] else PawnElements(k, n - 1) + if k[n - 1] == [] then [] else [PawnFile(n - 1, k[n - 1])]
  }

  function GroupElement(role: nat, side: Side, count: nat): seq<Element> {
    if count == 0 then [] else [PieceGroup(role, side, count)]
  }

  function RoleElements(stm: Counts, sntm: Counts, role: nat): seq<Element>
    requires role < 5
  {
    GroupElement(role, SideToMove, stm[role]) + GroupElement(role, SideNotToMove, sntm[role])
  }

  function GroupElements(stm: Counts, sntm: Counts, n: nat): seq<Element>
    requires n <= 5
  {
    if n == 0 then [] else GroupElements(stm, sntm, n - 1) + RoleElements(stm, sntm, n - 1)
  }

  /** The elements of a table, as they are sorted. */
  function Elements(m: Material): seq<Element> {
    PawnElements(m.key, 8) + GroupElements(m.stm, m.sntm, 5)
  }

  predicate Sorted(es: seq<Element>) {
    forall i, j | 0 <= i < j < |es| :: CompareElement(es[i], es[j]) == Less
  }

  lemma {:induction false} PawnElementsAre(k: Key, n: nat)
    requires n <= 8
    ensures forall e :: e in PawnElements(k, n) <==> e.PawnFile? && e.file < n && e.order == k[e.file] && e.order != []
    ensures Sorted(PawnElements(k, n))
  {
    if n > 0 {
      PawnElementsAre(k, n - 1);
      var before := PawnElements(k, n - 1);
      forall i | 0 <= i < |before| ensures before[i].PawnFile? && before[i].file < n - 1 {
        assert before[i] in before;
      }
    }
  }

  predicate IsGroup(stm: Counts, sntm: Counts, e: Element) {
    && e.PieceGroup? && e.role < 5 && e.multiplicity > 0
    && e.multiplicity == if e.side == SideToMove then stm[e.role] else sntm[e.role]
  }

  lemma RoleElementsAre(stm: Counts, sntm: Counts, role: nat)
    requires role < 5
    ensures forall e :: e in RoleElements(stm, sntm, role) <==> IsGroup(stm, sntm, e) && e.role == role
    ensures Sorted(RoleElements(stm, sntm, role))
  {
    var first, second := GroupElement(role, SideToMove, stm[role]), GroupElement(role, SideNotToMove, sntm[role]);
    forall e ensures e in RoleElements(stm, sntm, role) <==> e in first || e in second {
    }
  }

  lemma SortedConcat(a: seq<Element>, b: seq<Element>)
    requires Sorted(a) && Sorted(b)
    requires forall i, j | 0 <= i < |a| && 0 <= j < |b| :: CompareElement(a[i], b[j]) == Less
    ensures Sorted(a + b)
  {
    hide CompareElement;
  }

  lemma {:induction false} GroupElementsAre(stm: Counts, sntm: Counts, n: nat)
    requires n <= 5
    ensures forall e :: e in GroupElements(stm, sntm, n) <==> IsGroup(stm, sntm, e) && e.role < n
    ensures Sorted(GroupElements(stm, sntm, n))
  {
    hide Sorted, IsGroup, RoleElements;
    if n == 0 {
      NoGroups(stm, sntm);
    } else {
      var before, last := GroupElements(stm, sntm, n - 1), RoleElements(stm, sntm, n - 1);
      GroupElementsAre(stm, sntm, n - 1);
      RoleElementsAre(stm, sntm, n - 1);
      forall i, j | 0 <= i < |before| && 0 <= j < |last| ensures CompareElement(before[i], last[j]) == Less {
        assert before[i] in before && last[j] in last;
        GroupsHaveRoles(stm, sntm, before[i]);
        GroupsHaveRoles(stm, sntm, last[j]);
      }
      SortedConcat(before, last);
    }
  }

  lemma NoGroups(stm: Counts, sntm: Counts)
    ensures forall e :: e in GroupElements(stm, sntm, 0) <==> IsGroup(stm, sntm, e) && e.role < 0
    ensures Sorted(GroupElements(stm, sntm, 0))
  {
  }

  lemma GroupsHaveRoles(stm: Counts, sntm: Counts, e: Element)
    ensures IsGroup(stm, sntm, e) ==> e.PieceGroup?
  {
  }

  /** The elements are sorted, and they tell the material. */
  lemma ElementsAreSorted(m: Material)
    ensures Sorted(Elements(m))
  {
    PawnElementsAre(m.key, 8);
    GroupElementsAre(m.stm, m.sntm, 5);
    var pawns, groups := PawnElements(m.key, 8), GroupElements(m.stm, m.sntm, 5);
    forall i | 0 <= i < |pawns| ensures pawns[i].PawnFile? {
      assert pawns[i] in pawns;
    }
    forall i | 0 <= i < |groups| ensures groups[i].PieceGroup? {
      assert groups[i] in groups;
    }
  }

  lemma ElementsDiffer(a: Material, b: Material)
    requires Elements(a) == Elements(b)
    ensures a == b
  {
    hide PawnElements, GroupElements, Sorted;
    ElementKinds(a);
    ElementKinds(b);
    forall e ensures e in PawnElements(a.key, 8) <==> e in PawnElements(b.key, 8) {
      assert e in Elements(a) <==> e in Elements(b);
    }
    forall e ensures e in GroupElements(a.stm, a.sntm, 5) <==> e in GroupElements(b.stm, b.sntm, 5) {
      assert e in Elements(a) <==> e in Elements(b);
    }
    SameFiles(a.key, b.key);
    SameGroups(a, b);
  }

  lemma ElementKinds(m: Material)
    ensures forall e :: e in Elements(m) && e.PawnFile? <==> e in PawnElements(m.key, 8)
    ensures forall e :: e in Elements(m) && e.PieceGroup? <==> e in GroupElements(m.stm, m.sntm, 5)
  {
    hide PawnElements, GroupElements, Sorted;
    PawnElementsAre(m.key, 8);
    GroupElementsAre(m.stm, m.sntm, 5);
    assert forall e :: e in Elements(m) <==> e in PawnElements(m.key, 8) || e in GroupElements(m.stm, m.sntm, 5);
  }

  lemma SameFiles(k: Key, l: Key)
    requires forall e :: e in PawnElements(k, 8) <==> e in PawnElements(l, 8)
    ensures k == l
  {
    hide PawnElements, Sorted;
    PawnElementsAre(k, 8);
    PawnElementsAre(l, 8);
    forall f | 0 <= f < 8 ensures k[f] == l[f] {
      assert PawnFile(f, k[f]) in PawnElements(k, 8) <==> k[f] != [];
      assert PawnFile(f, l[f]) in PawnElements(l, 8) <==> l[f] != [];
    }
  }

  lemma SameGroups(a: Material, b: Material)
    requires forall e :: e in GroupElements(a.stm, a.sntm, 5) <==> e in GroupElements(b.stm, b.sntm, 5)
    ensures a.stm == b.stm && a.sntm == b.sntm
  {
    hide GroupElements, Sorted;
    GroupElementsAre(a.stm, a.sntm, 5);
    GroupElementsAre(b.stm, b.sntm, 5);
    forall r | 0 <= r < 5 ensures a.stm[r] == b.stm[r] && a.sntm[r] == b.sntm[r] {
      assert PieceGroup(r, SideToMove, a.stm[r]) in GroupElements(a.stm, a.sntm, 5) <==> a.stm[r] > 0;
      assert PieceGroup(r, SideToMove, b.stm[r]) in GroupElements(b.stm, b.sntm, 5) <==> b.stm[r] > 0;
      assert PieceGroup(r, SideNotToMove, a.sntm[r]) in GroupElements(a.stm, a.sntm, 5) <==> a.sntm[r] > 0;
      assert PieceGroup(r, SideNotToMove, b.sntm[r]) in GroupElements(b.stm, b.sntm, 5) <==> b.sntm[r] > 0;
    }
  }

  // ---------------------------------------------------------------------
  // The order.

  function Compare(a: Material, b: Material): Ordering {
    CompareNat(UpperLetters(Name(a)), UpperLetters(Name(b)))
    .Then(CompareNat(PawnLetters(Name(a)), PawnLetters(Name(b))))
    .Then(CompareLists(NameKey(Name(a)), NameKey(Name(b))))
    .Then(if Name(a) == Name(b) then Equal else CompareElements(Elements(a), Elements(b)))
  }

  /** Comparisons of a with b, b with c, and a with c in a linear order. */
  predicate Consistent(ab: Ordering, bc: Ordering, ac: Ordering) {
    && (ab == Equal ==> ac == bc)
    && (bc == Equal ==> ac == ab)
    && (ab == bc ==> ac == ab)
  }

  lemma {:induction false} ListsAreConsistent(a: seq<nat>, b: seq<nat>, c: seq<nat>)
    ensures Consistent(CompareLists(a, b), CompareLists(b, c), CompareLists(a, c))
  {
    if a != [] && b != [] && c != [] {
      ListsAreConsistent(a[1..], b[1..], c[1..]);
    }
  }

  lemma BitsDiffer(v: ColorWord, w: ColorWord)
    requires Bits(v) == Bits(w)
    ensures v == w
  {
    forall i | 0 <= i < |v| ensures v[i] == w[i] {
      assert Bits(v)[i] == Bits(w)[i];
    }
  }

  lemma ElementIsConsistent(a: Element, b: Element, c: Element)
    ensures CompareElement(a, b) == Equal <==> a == b
    ensures CompareElement(b, a) == CompareElement(a, b).Reversed()
    ensures Consistent(CompareElement(a, b), CompareElement(b, c), CompareElement(a, c))
  {
    hide CompareLists, Bits;
    if a.PawnFile? && b.PawnFile? {
      ComparisonReverses(Bits(a.order), Bits(b.order));
      if Bits(a.order) == Bits(b.order) {
        BitsDiffer(a.order, b.order);
      }
      if c.PawnFile? {
        ListsAreConsistent(Bits(a.order), Bits(b.order), Bits(c.order));
      }
    }
  }

  lemma {:induction false} ElementsAreConsistent(a: seq<Element>, b: seq<Element>, c: seq<Element>)
    ensures Consistent(CompareElements(a, b), CompareElements(b, c), CompareElements(a, c))
  {
    hide CompareElement;
    if a != [] && b != [] && c != [] {
      ElementIsConsistent(a[0], b[0], c[0]);
      ElementsAreConsistent(a[1..], b[1..], c[1..]);
    }
  }

  lemma {:induction false} ElementsReverse(a: seq<Element>, b: seq<Element>)
    ensures CompareElements(b, a) == CompareElements(a, b).Reversed()
    ensures CompareElements(a, b) == Equal <==> a == b
  {
    hide CompareElement;
    if a != [] && b != [] {
      ElementIsConsistent(a[0], b[0], b[0]);
      ElementsReverse(a[1..], b[1..]);
      assert a == [a[0]] + a[1..] && b == [b[0]] + b[1..];
    }
  }

  /** The last comparison is that of the elements, which equal names skip. */
  lemma CompareIs(a: Material, b: Material)
    ensures Compare(a, b)
            == CompareNat(Pieces(a), Pieces(b)).Then(CompareNat(PawnsOn(a.key, 8), PawnsOn(b.key, 8)))
               .Then(CompareLists(NameKey(Name(a)), NameKey(Name(b)))).Then(CompareElements(Elements(a), Elements(b)))
  {
    hide Name, UpperLetters, PawnLetters, Pieces, PawnsOn, NameKey, CompareLists, CompareElements, Elements;
    LettersAreCounts(a);
    LettersAreCounts(b);
    if Name(a) == Name(b) {
      NamesAreDistinct(a, b);
      ElementsReverse(Elements(a), Elements(b));
    }
  }

  /** The order is linear, and only equal tables tie, although marks are dropped. */
  lemma OrderIsLinear(a: Material, b: Material, c: Material)
    ensures Compare(a, b) == Equal <==> a == b
    ensures Compare(b, a) == Compare(a, b).Reversed()
    ensures Consistent(Compare(a, b), Compare(b, c), Compare(a, c))
  {
    hide Compare, Name, Pieces, PawnsOn, NameKey, CompareLists, CompareElements, Elements;
    CompareIs(a, b);
    CompareIs(b, a);
    CompareIs(b, c);
    CompareIs(a, c);
    OneOrder(a, b);
    ListsAreConsistent(NameKey(Name(a)), NameKey(Name(b)), NameKey(Name(c)));
    ElementsAreConsistent(Elements(a), Elements(b), Elements(c));
  }

  lemma OneOrder(a: Material, b: Material)
    ensures CompareLists(NameKey(Name(b)), NameKey(Name(a)))
            == CompareLists(NameKey(Name(a)), NameKey(Name(b))).Reversed()
    ensures CompareElements(Elements(b), Elements(a)) == CompareElements(Elements(a), Elements(b)).Reversed()
    ensures CompareElements(Elements(a), Elements(b)) == Equal <==> a == b
    ensures a == b ==> CompareLists(NameKey(Name(a)), NameKey(Name(b))) == Equal
  {
    hide Name, NameKey, Elements;
    ComparisonReverses(NameKey(Name(a)), NameKey(Name(b)));
    ElementsReverse(Elements(a), Elements(b));
    if Elements(a) == Elements(b) {
      ElementsDiffer(a, b);
    }
  }

  /** Tables with fewer pieces, or as many pieces and fewer pawns, come first. */
  predicate Simpler(a: Material, b: Material) {
    Pieces(a) < Pieces(b) || (Pieces(a) == Pieces(b) && PawnsOn(a.key, 8) < PawnsOn(b.key, 8))
  }

  lemma SimplerComesFirst(a: Material, b: Material)
    requires Simpler(a, b)
    ensures Compare(a, b) == Less
  {
    hide Compare, Name, Pieces, PawnsOn, NameKey, CompareLists, CompareElements, Elements;
    CompareIs(a, b);
  }
}
