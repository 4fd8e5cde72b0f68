/**
  Concrete cells worked through each rule: an isolated cell dying, a birth,
  two generational births (one past the value 100), two blurs, and the
  negatives of black, white and mid-grey.
 */
module Scenarios {
  import opened Moore
  import opened Rules

  /** All eight neighbours dead. */
  const Empty: Neighbourhood := Neighbourhood(0, 0, 0, 0, 0, 0, 0, 0)

  /** An isolated live cell dies. */
  lemma IsolatedCellDies()
    ensures Conway(1, Empty) == 0
    ensures Generational(1, Empty) == 0
  {
  }

  /** A dead cell with live neighbours to the north, east and south is born. */
  lemma BirthFromThreeNeighbours()
    ensures Conway(0, Empty.(N := 1, E := 1, S := 1)) == 100
    ensures Generational(0, Empty.(N := 1, E := 1, S := 1)) == 2
  {
  }

  /** A generational newborn is one generation past its oldest parent. */
  lemma GenerationalNewbornValue()
    ensures Generational(0, Empty.(N := 5, E := 2, S := 3)) == 6
  {
  }

  /** Generation values are not capped at 100: three neighbours of Conway's
      newborn value 100 produce a generational newborn of 101. */
  lemma GenerationalNewbornPastHundred()
    ensures Generational(0, Neighbourhood(100, 100, 100, 0, 0, 0, 0, 0)) == 101
  {
  }

  /** A bright pixel among black ones halves; a darker one moves halfway up. */
  lemma BlurExamples()
    ensures Blur(100, Empty) == 50
    ensures Blur(10, Neighbourhood(20, 0, 20, 0, 20, 0, 20, 0)) == 15
  {
  }

  /** Black, white and mid-grey under the negative. */
  lemma NegativeExamples()
    ensures Negative(0, Empty) == 255
    ensures Negative(255, Empty) == 0
    ensures Negative(128, Empty) == 127
  {
  }
}
