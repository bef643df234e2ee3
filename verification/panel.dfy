/**
 The colour of the panel border, chosen from the final score: red from 70
 points, yellow from 40 points, green below.
 */
module Panel {

  datatype Colour = Green | Yellow | Red

  /** Position of a colour on the scale of alarm. */
  function Severity(c: Colour): nat {
    match c
    case Green => 0
    case Yellow => 1
    case Red => 2
  }

  const RedFrom: nat := 7000     // 70 points, in hundredths
  const YellowFrom: nat := 4000  // 40 points, in hundredths

  /** The border colour for a final score given in hundredths of a point. */
  function BorderColour(score: nat): (c: Colour)
    ensures c == Red <==> score >= RedFrom
    ensures c == Yellow <==> YellowFrom <= score < RedFrom
    ensures c == Green <==> score < YellowFrom
  {
    if score >= RedFrom then Red
    else if score >= YellowFrom then Yellow
    else Green
  }

  /** A higher score never gets a calmer colour. */
  lemma BorderColourMonotone(s1: nat, s2: nat)
    requires s1 <= s2
    ensures Severity(BorderColour(s1)) <= Severity(BorderColour(s2))
  {
  }
}
