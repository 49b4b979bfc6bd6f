/** Outcomes of a table position, their preference order, and the value a move
    gives to the side that plays it. */
module Outcomes {
  import opened Wrappers

  /** Declared from least to most preferred for the winning side. */
  datatype ConversionType = Promotion | Capture | Checkmate

  /** Distances are in plies, from the point of view of the side to move. */
  datatype DtcOutcome =
    | Win(ct: ConversionType, plies: nat)
    | Draw
    | Loss(ct: ConversionType, plies: nat)

  function Preference(ct: ConversionType): nat {
    match ct
    case Promotion => 0
    case Capture => 1
    case Checkmate => 2
  }

  function CompareTypes(a: ConversionType, b: ConversionType): Ordering {
    CompareNat(Preference(a), Preference(b))
  }

  /** Wins are better when short, losses when long; at equal length the winner
      prefers Checkmate, then Capture, and the loser the reverse. */
  function Compare(a: DtcOutcome, b: DtcOutcome): Ordering {
    match (a, b)
    case (Win(ct1, n1), Win(ct2, n2)) => CompareNat(n2, n1).Then(CompareTypes(ct1, ct2))
    case (Draw, Draw) => Equal
    case (Loss(ct1, n1), Loss(ct2, n2)) => CompareNat(n1, n2).Then(CompareTypes(ct2, ct1))
    case (Win(_, _), _) => Greater
    case (_, Win(_, _)) => Less
    case (Draw, Loss(_, _)) => Greater
    case (Loss(_, _), Draw) => Less
  }

  predicate AtMost(a: DtcOutcome, b: DtcOutcome) {
    Compare(a, b) != Greater
  }

  /** `Compare` is a linear order in which only identical outcomes tie. */
  lemma OrderIsLinear(a: DtcOutcome, b: DtcOutcome, c: DtcOutcome)
    ensures Compare(a, b) == Equal <==> a == b
    ensures Compare(a, b) == Less <==> Compare(b, a) == Greater
    ensures AtMost(a, b) && AtMost(b, c) ==> AtMost(a, c)
  {
  }

  /** A legal move as the checker sees it: quiet moves stay in the table pair and
      lead to a position of it, conversions leave it for a finished table. */
  datatype Move<+P> =
    | Quiet(to: P)
    | Capturing(promotes: bool, dependency: DtcOutcome)
    | Promoting(dependency: DtcOutcome)
  {
    predicate IsCapture() { Capturing? }

    predicate IsPromotion() { Promoting? || (Capturing? && promotes) }

    predicate IsConversion() { IsCapture() || IsPromotion() }

    /** A capturing promotion counts as a capture. */
    function Type(): ConversionType
      requires IsConversion()
    {
      if IsCapture() then Capture else Promotion
    }
  }

  /** The value, for the side playing `m`, of reaching `successor`. */
  function MoveValue<P>(m: Move<P>, successor: DtcOutcome): DtcOutcome {
    if m.IsConversion() then
      match successor
      case Loss(_, _) => Win(m.Type(), 1)
      case Draw => Draw
      case Win(_, _) => Loss(m.Type(), 1)
    else
      match successor
      case Loss(ct, n) => Win(ct, n + 1)
      case Draw => Draw
      case Win(ct, n) => Loss(ct, n + 1)
  }
}
