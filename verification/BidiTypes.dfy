/** The character classes, directions and embedding levels shared by every pass
    of the bidirectional algorithm. */
module BidiTypes {

  datatype BidiClass =
    | ArabicLetter
    | ArabicNumber
    | BoundaryNeutral
    | CommonSeparator
    | EuropeanNumber
    | EuropeanSeparator
    | EuropeanTerminator
    | FirstStrongIsolate
    | LeftToRight
    | LeftToRightEmbedding
    | LeftToRightIsolate
    | LeftToRightOverride
    | NonspacingMark
    | OtherNeutral
    | ParagraphSeparator
    | PopDirectionalFormat
    | PopDirectionalIsolate
    | RightToLeft
    | RightToLeftEmbedding
    | RightToLeftIsolate
    | RightToLeftOverride
    | SegmentSeparator
    | WhiteSpace
  {
    predicate IsIsoInit() {
      RightToLeftIsolate? || LeftToRightIsolate? || FirstStrongIsolate?
    }

    predicate IsIsoControl() {
      IsIsoInit() || PopDirectionalIsolate?
    }

    predicate IsNeutral() {
      OtherNeutral? || WhiteSpace? || SegmentSeparator? || ParagraphSeparator? || IsIsoControl()
    }

    /** The classes that rule X9 deletes. */
    predicate IsFormat() {
      || RightToLeftEmbedding? || LeftToRightEmbedding?
      || RightToLeftOverride? || LeftToRightOverride?
      || PopDirectionalFormat? || BoundaryNeutral?
    }
  }

  /** The same by name. */
  const DELETED_CLASSES := {
    RightToLeftEmbedding, LeftToRightEmbedding, RightToLeftOverride, LeftToRightOverride,
    PopDirectionalFormat, BoundaryNeutral
  }

  lemma DeletedMeans(bc: BidiClass)
    ensures bc.IsFormat() <==> bc in DELETED_CLASSES
  {
  }

  datatype Direction = Ltr | Rtl
  {
    function Opposite(): Direction {
      if this == Ltr then Rtl else Ltr
    }

    function AsBidiClass(): BidiClass {
      if this == Ltr then LeftToRight else RightToLeft
    }
  }

  /** The `i8` inside the source's Level. */
  type Level = int

  const MAX_DEPTH := 125

  /** The level of a character that rule X9 removed. */
  const NO_LEVEL: Level := -1

  /** `level % 2 == 1` with Rust's truncating remainder, which is never 1 for a
      negative level. */
  predicate IsOdd(level: Level) {
    level > 0 && level % 2 == 1
  }

  function DirectionOf(level: Level): Direction {
    if IsOdd(level) then Rtl else Ltr
  }

  function ClassOf(level: Level): BidiClass {
    DirectionOf(level).AsBidiClass()
  }

  /** The higher of two levels is odd. */
  predicate OddHigher(a: Level, b: Level) {
    if a < b then b > 0 && b % 2 == 1 else a > 0 && a % 2 == 1
  }

  /** An even level goes left to right and an odd one right to left; where two levels meet the
      higher one decides. */
  lemma HigherDecides(a: Level, b: Level)
    ensures a >= 0 ==> ClassOf(a) == if a % 2 == 0 then LeftToRight else RightToLeft
    ensures a >= 0 ==> DirectionOf(a) == if a % 2 == 0 then Ltr else Rtl
    ensures ClassOf(Max(a, b)) == if OddHigher(a, b) then RightToLeft else LeftToRight
  {
  }

  function Max(a: Level, b: Level): Level {
    if a < b then b else a
  }
}
