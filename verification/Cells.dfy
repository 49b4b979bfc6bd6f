/** Working and stored cells of a table, and their packing into 16-bit words. */
module Cells {
  import opened Outcomes
  import opened Wrappers

  datatype Cell =
    | Invalid
    | Unknown(counter: nat)
    | Drawn
    | Won(ct: ConversionType, plies: nat)
    | Lost(ct: ConversionType, plies: nat)

  function ToOutcome(c: Cell): Option<DtcOutcome> {
    match c
    case Drawn => Some(Draw)
    case Won(ct, n) => Some(Win(ct, n))
    case Lost(ct, n) => Some(Loss(ct, n))
    case _ => None
  }

  // ---------------------------------------------------------------------
  // Words: three tag bits below a 13-bit distance or counter.

  type Word = w: int | 0 <= w < 0x1_0000

  /** The words that values are written as: of the words with the tag of a draw,
      only the one without distance bits. */
  type CellWord = w: Word | w % 8 == 1 ==> w == 1

  /** Left shift by three of a 16-bit value: the top three bits are lost. */
  function ShiftIn(n: nat): (w: Word)
    ensures w % 8 == 0
  {
    ShiftRoundTrip(n);
    n * 8 % 0x1_0000
  }

  lemma ShiftRoundTrip(n: nat)
    ensures n * 8 % 0x1_0000 % 8 == 0 && n * 8 % 0x1_0000 / 8 == n % 0x2000
  {
    var q := n * 8 / 0x1_0000;
    assert n * 8 == q * 0x1_0000 + n * 8 % 0x1_0000;
    assert n * 8 % 0x1_0000 == 8 * (n - q * 0x2000);
  }

  function TypeBits(ct: ConversionType): nat {
    match ct
    case Checkmate => 2
    case Capture => 4
    case Promotion => 6
  }

  function NewWin(ct: ConversionType, n: nat): CellWord {
    TypeBits(ct) + ShiftIn(n)
  }

  function NewLoss(ct: ConversionType, n: nat): CellWord {
    TypeBits(ct) + 1 + ShiftIn(n)
  }

  function NewUnknown(counter: nat): CellWord {
    ShiftIn(counter)
  }

  const INVALID: CellWord := 0
  const DRAW: CellWord := 1

  predicate IsUnknown(w: Word) { w % 8 == 0 && w / 8 != 0 }
  predicate IsWin(w: Word) { w % 8 == 2 || w % 8 == 4 || w % 8 == 6 }
  predicate IsLoss(w: Word) { w % 8 == 3 || w % 8 == 5 || w % 8 == 7 }

  function Pack(c: Cell): CellWord {
    match c
    case Invalid => INVALID
    case Drawn => DRAW
    case Unknown(counter) => NewUnknown(counter)
    case Won(ct, n) => NewWin(ct, n)
    case Lost(ct, n) => NewLoss(ct, n)
  }

  function OutcomeType(w: Word): ConversionType {
    match w % 8
    case 2 => Checkmate
    case 3 => Checkmate
    case 4 => Capture
    case 5 => Capture
    case _ => Promotion
  }

  function Unpack(w: Word): Cell {
    if w == INVALID then Invalid
    else if IsUnknown(w) then Unknown(w / 8)
    else if IsWin(w) then Won(OutcomeType(w), w / 8)
    else if IsLoss(w) then Lost(OutcomeType(w), w / 8)
    else Drawn
  }

  /** The distance or counter of a cell fits the 13 bits it is given, and no
      counter is zero. */
  predicate Fits(c: Cell) {
    match c
    case Unknown(counter) => 0 < counter < 0x2000
    case Won(_, n) => n < 0x2000
    case Lost(_, n) => n < 0x2000
    case _ => true
  }

  /** The words as numbers: 0 is invalid and 1 a draw, multiples of 8 are counters; wins have
      the tags 2, 4 and 6 for checkmate, capture and promotion, losses the odd tag above. */
  lemma PackedWords(ct: ConversionType, n: nat)
    requires n < 0x2000
    ensures Pack(Invalid) == 0 && Pack(Drawn) == 1 && Pack(Unknown(n)) == 8 * n
    ensures var tag := match ct case Checkmate => 2 case Capture => 4 case Promotion => 6;
            Pack(Won(ct, n)) == 8 * n + tag && Pack(Lost(ct, n)) == 8 * n + tag + 1
  {
  }

  /** Packing is lossless exactly for cells that fit: the word of a distance of
      8192 plies or more reads back as a shorter one, and a zero counter as an
      invalid index. */
  lemma PackingIsExact(c: Cell)
    ensures Unpack(Pack(c)) == c <==> Fits(c)
  {
    hide ShiftIn;
    match c
    case Unknown(n) => TagAndDistance(0, n);
    case Won(ct, n) => TagAndDistance(TypeBits(ct), n);
    case Lost(ct, n) => TagAndDistance(TypeBits(ct) + 1, n);
    case _ =>
  }

  lemma TagAndDistance(tag: nat, n: nat)
    requires tag < 8
    ensures (tag + ShiftIn(n)) % 8 == tag && (tag + ShiftIn(n)) / 8 == n % 0x2000
  {
    ShiftRoundTrip(n);
  }

  /** Every word except a draw with stray distance bits is some cell's word. */
  lemma UnpackingIsExact(w: Word)
    ensures Pack(Unpack(w)) == w <==> w == DRAW || w % 8 != 1
  {
    var n := w / 8;
    assert w == 8 * n + w % 8;
    ShiftRoundTrip(n);
  }

  lemma UnpackedFits(w: Word)
    ensures Fits(Unpack(w))
  {
  }

  // ---------------------------------------------------------------------
  // The two atomic updates of the propagation.

  predicate Markable(c: Cell, ct: ConversionType, plies: nat) {
    c.Unknown? || (c.Won? && c.plies == plies && Preference(ct) > Preference(c.ct))
  }

  /** A loss at the previous ply reaches this cell: an unknown becomes a win, a
      win at this very ply keeps the better conversion type. */
  function MarkWin(c: Cell, ct: ConversionType, plies: nat): Cell {
    if Markable(c, ct, plies) then Won(ct, plies) else c
  }

  /** A win at the previous ply reaches this cell: one escape less, and a loss
      when none is left. */
  function Decrement(c: Cell, ct: ConversionType, plies: nat): Cell {
    if !c.Unknown? then c
    else if c.counter <= 1 then Lost(ct, plies)
    else Unknown(c.counter - 1)
  }

  predicate MarkableWord(w: Word, ct: ConversionType, plies: nat) {
    IsUnknown(w) || (IsWin(w) && w / 8 == plies && Preference(ct) > Preference(OutcomeType(w)))
  }

  function MarkWinWord(w: CellWord, ct: ConversionType, plies: nat): CellWord {
    if MarkableWord(w, ct, plies) then NewWin(ct, plies) else w
  }

  function DecrementWord(w: CellWord, ct: ConversionType, plies: nat): CellWord {
    if !IsUnknown(w) then w
    else if w / 8 == 1 then NewLoss(ct, plies)
    else NewUnknown(w / 8 - 1)
  }

  /** The word updates are the cell updates exactly below 8192 plies, or where they
      write no distance. */
  lemma WordUpdatesAreCellUpdates(w: CellWord, ct: ConversionType, plies: nat)
    ensures Unpack(MarkWinWord(w, ct, plies)) == MarkWin(Unpack(w), ct, plies)
            <==> plies < 0x2000 || !Markable(Unpack(w), ct, plies)
    ensures Unpack(DecrementWord(w, ct, plies)) == Decrement(Unpack(w), ct, plies)
            <==> plies < 0x2000 || !IsUnknown(w) || w / 8 > 1
  {
    PackingIsExact(Won(ct, plies));
    PackingIsExact(Lost(ct, plies));
    if IsUnknown(w) && w / 8 > 1 {
      PackingIsExact(Unknown(w / 8 - 1));
    }
  }

  /** A distance that is written reads back modulo 8192. */
  lemma DeepUpdatesWrap(w: CellWord, ct: ConversionType, plies: nat)
    requires IsUnknown(w)
    ensures Unpack(MarkWinWord(w, ct, plies)) == Won(ct, plies % 0x2000)
    ensures w / 8 == 1 ==> Unpack(DecrementWord(w, ct, plies)) == Lost(ct, plies % 0x2000)
  {
    hide ShiftIn;
    TagAndDistance(TypeBits(ct), plies);
    TagAndDistance(TypeBits(ct) + 1, plies);
  }

  /** A counter of 8192 or more loses its upper bits: the position is lost after too
      few decrements. */
  lemma WideCountersWrap(counter: nat, ct: ConversionType, plies: nat)
    requires counter > 1 && counter % 0x2000 == 1 && plies < 0x2000
    ensures Unpack(DecrementWord(Pack(Unknown(counter)), ct, plies)) == Lost(ct, plies)
    ensures Decrement(Unknown(counter), ct, plies) == Unknown(counter - 1)
  {
    hide ShiftIn;
    TagAndDistance(0, counter);
    TagAndDistance(TypeBits(ct) + 1, plies);
  }
}
