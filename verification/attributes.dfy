/**
 The four card attributes of the Set game. Each is a closed enumeration of
 exactly three cases, listed in declaration order by `All…` sequences that
 play the role of Swift's `CaseIterable.allCases`.
 */
module Attributes {
  import opened Seqs

  datatype CardShape = Oval | Diamond | Squiggle

  datatype CardColor = Red | Green | Purple

  /** The pattern's fill opacity (a floating-point raw value) is presentation
      and is not modelled; only the three cases are. */
  datatype CardPattern = Open | Solid | Striped

  datatype ShapeCount = One | Two | Three

  const AllShapes: seq<CardShape> := [Oval, Diamond, Squiggle]
  const AllColors: seq<CardColor> := [Red, Green, Purple]
  const AllPatterns: seq<CardPattern> := [Open, Solid, Striped]
  const AllCounts: seq<ShapeCount> := [One, Two, Three]

  /** Position of a shape in `AllShapes`. */
  function ShapeIndex(s: CardShape): (i: nat)
    ensures i < 3 && AllShapes[i] == s
  {
    match s
    case Oval => 0
    case Diamond => 1
    case Squiggle => 2
  }

  /** Position of a colour in `AllColors`. */
  function ColorIndex(c: CardColor): (i: nat)
    ensures i < 3 && AllColors[i] == c
  {
    match c
    case Red => 0
    case Green => 1
    case Purple => 2
  }

  /** Position of a pattern in `AllPatterns`. */
  function PatternIndex(p: CardPattern): (i: nat)
    ensures i < 3 && AllPatterns[i] == p
  {
    match p
    case Open => 0
    case Solid => 1
    case Striped => 2
  }

  /** Position of a count in `AllCounts`. */
  function CountIndex(n: ShapeCount): (i: nat)
    ensures i < 3 && AllCounts[i] == n
  {
    match n
    case One => 0
    case Two => 1
    case Three => 2
  }

  /** The integer raw value of a count: `one = 1` and the two following
      cases numbered implicitly after it. */
  function RawValue(n: ShapeCount): (v: int)
    ensures 1 <= v <= 3
    ensures v == CountIndex(n) + 1
  {
    match n
    case One => 1
    case Two => 2
    case Three => 3
  }

  /** Distinct counts have distinct raw values, so the raw value identifies the case. */
  lemma RawValueInjective(a: ShapeCount, b: ShapeCount)
    ensures RawValue(a) == RawValue(b) <==> a == b
  {
  }

  /** Every attribute enumeration has exactly three cases, each listed once. */
  lemma ThreeCasesEach()
    ensures |AllShapes| == 3 && Distinct(AllShapes) && forall s: CardShape :: s in AllShapes
    ensures |AllColors| == 3 && Distinct(AllColors) && forall c: CardColor :: c in AllColors
    ensures |AllPatterns| == 3 && Distinct(AllPatterns) && forall p: CardPattern :: p in AllPatterns
    ensures |AllCounts| == 3 && Distinct(AllCounts) && forall n: ShapeCount :: n in AllCounts
  {
    forall s: CardShape ensures s in AllShapes {
      assert AllShapes[ShapeIndex(s)] == s;
    }
    forall c: CardColor ensures c in AllColors {
      assert AllColors[ColorIndex(c)] == c;
    }
    forall p: CardPattern ensures p in AllPatterns {
      assert AllPatterns[PatternIndex(p)] == p;
    }
    forall n: ShapeCount ensures n in AllCounts {
      assert AllCounts[CountIndex(n)] == n;
    }
  }
}
