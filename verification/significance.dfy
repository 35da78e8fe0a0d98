/** `palabras_significativas` (app.py:124-135): labels a word by how its counts in
    the two texts compare, with the first matching rule of five. */
module Significance {

  datatype Label = ExclusiveToText1 | ExclusiveToText2 | MoreInText1 | MoreInText2 | NoSkew

  /** The text shown in the Significance column. */
  function Caption(l: Label): (s: string)
    ensures s == "" <==> l == NoSkew
  {
    match l
    case ExclusiveToText1 => "Exclusive to Text 1"
    case ExclusiveToText2 => "Exclusive to Text 2"
    case MoreInText1 => "Significantly more in Text 1"
    case MoreInText2 => "Significantly more in Text 2"
    case NoSkew => ""
  }

  /** The same label with the roles of the two texts exchanged. */
  function Mirror(l: Label): (m: Label)
    ensures m == NoSkew <==> l == NoSkew
  {
    match l
    case ExclusiveToText1 => ExclusiveToText2
    case ExclusiveToText2 => ExclusiveToText1
    case MoreInText1 => MoreInText2
    case MoreInText2 => MoreInText1
    case NoSkew => NoSkew
  }

  /** The classification rule: each label is characterised on its own, without
      reference to the order in which the rules are tried. */
  function Classify(c1: nat, c2: nat): (l: Label)
    ensures l == ExclusiveToText1 <==> c1 > 0 && c2 == 0
    ensures l == ExclusiveToText2 <==> c1 == 0 && c2 > 0
    ensures l == MoreInText1 <==> c1 > 0 && c2 > 0 && c1 > 2 * c2 && c1 > 5
    ensures l == MoreInText2 <==> c1 > 0 && c2 > 0 && c2 > 2 * c1 && c2 > 5
    ensures l == NoSkew <==> (c1 == 0 && c2 == 0) || (c1 > 0 && c2 > 0 && (c1 <= 2 * c2 || c1 <= 5) && (c2 <= 2 * c1 || c2 <= 5))
  {
    if c1 > 0 && c2 == 0 then ExclusiveToText1
    else if c2 > 0 && c1 == 0 then ExclusiveToText2
    else if c1 > c2 * 2 && c1 > 5 then MoreInText1
    else if c2 > c1 * 2 && c2 > 5 then MoreInText2
    else NoSkew
  }

  /** Exchanging the two counts exchanges Text 1 and Text 2 in the label. */
  lemma ClassifySymmetric(c1: nat, c2: nat)
    ensures Classify(c2, c1) == Mirror(Classify(c1, c2))
  {
  }

  /** The thresholds at their edges: a factor of exactly two is not enough, and
      neither is a skew of counts no larger than five. */
  lemma ClassifyBoundaries()
    ensures Classify(10, 3) == MoreInText1
    ensures Classify(6, 3) == NoSkew
    ensures Classify(1, 3) == NoSkew
    ensures Classify(3, 10) == MoreInText2
    ensures Classify(5, 0) == ExclusiveToText1 && Classify(1000, 0) == ExclusiveToText1
    ensures Classify(0, 0) == NoSkew
  {
  }
}
