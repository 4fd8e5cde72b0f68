/**
  Behavioural properties of the transition rules: the life rules' case
  analysis, their independence from neighbour order, where the generational
  rule departs from Conway's, and the ranges, fixed points and symmetries of
  the image rules.
 */
module RuleProperties {
  import opened Moore
  import opened Liveness
  import opened Maximum
  import opened Rules

  // ---------------------------------------------------------------- conway

  /** A live cell survives unchanged with two or three live neighbours and dies otherwise. */
  lemma ConwayLiveCentre(cntr: int, nbrs: Neighbourhood)
    requires cntr > 0
    ensures var k := CountAlive(Values(nbrs));
            Conway(cntr, nbrs) == if k == 2 || k == 3 then cntr else 0
  {
  }

  /** A dead cell is born with value 100 with exactly three live neighbours and stays 0 otherwise. */
  lemma ConwayDeadCentre(cntr: int, nbrs: Neighbourhood)
    requires cntr <= 0
    ensures Conway(cntr, nbrs) == if CountAlive(Values(nbrs)) == 3 then 100 else 0
  {
  }

  /** Two neighbourhoods with the same number of live cells give the same result. */
  lemma ConwayDependsOnlyOnCount(cntr: int, a: Neighbourhood, b: Neighbourhood)
    requires CountAlive(Values(a)) == CountAlive(Values(b))
    ensures Conway(cntr, a) == Conway(cntr, b)
  {
  }

  /** Rearranging the neighbour values leaves the result unchanged. */
  lemma ConwayPermutationInvariant(cntr: int, a: Neighbourhood, b: Neighbourhood)
    requires multiset(Values(a)) == multiset(Values(b))
    ensures Conway(cntr, a) == Conway(cntr, b)
  {
    CountAlivePermutation(Values(a), Values(b));
  }

  // ---------------------------------------------------------- generational

  /** Outside the birth case (dead centre, three live neighbours) the
      generational rule is exactly Conway's. */
  lemma GenerationalAgreesWithConway(cntr: int, nbrs: Neighbourhood)
    requires !(cntr <= 0 && CountAlive(Values(nbrs)) == 3)
    ensures Generational(cntr, nbrs) == Conway(cntr, nbrs)
  {
  }

  /** In the birth case the newborn is one more than the largest neighbour
      value, at least 2, and greater than every neighbour; it differs from
      Conway's 100 exactly when that largest value is not 99. */
  lemma GenerationalBirth(cntr: int, nbrs: Neighbourhood)
    requires cntr <= 0 && CountAlive(Values(nbrs)) == 3
    ensures Generational(cntr, nbrs) == 1 + Largest(nbrs)
    ensures Generational(cntr, nbrs) >= 2
    ensures forall i :: 0 <= i < 8 ==> Values(nbrs)[i] < Generational(cntr, nbrs)
    ensures Generational(cntr, nbrs) == Conway(cntr, nbrs) <==> Largest(nbrs) == 99
  {
  }

  /** Both life rules produce the same live/dead pattern. */
  lemma GenerationalSameLivenessAsConway(cntr: int, nbrs: Neighbourhood)
    ensures Life(Generational(cntr, nbrs)) == Life(Conway(cntr, nbrs))
  {
  }

  /** The largest neighbour value does not depend on neighbour order. */
  lemma LargestPermutationInvariant(a: Neighbourhood, b: Neighbourhood)
    requires multiset(Values(a)) == multiset(Values(b))
    ensures Largest(a) == Largest(b)
  {
    LargestIsMaxOf(a);
    LargestIsMaxOf(b);
    MaxOfPermutation(Values(a), Values(b));
  }

  /** A birth happens in the same cell with the same newborn value when the
      neighbour values are rearranged. */
  lemma GenerationalBirthPermutationInvariant(cntr: int, a: Neighbourhood, b: Neighbourhood)
    requires multiset(Values(a)) == multiset(Values(b))
    requires cntr <= 0 && CountAlive(Values(a)) == 3
    ensures Generational(cntr, a) == Generational(cntr, b)
  {
    CountAlivePermutation(Values(a), Values(b));
    LargestPermutationInvariant(a, b);
    GenerationalBirth(cntr, a);
    GenerationalBirth(cntr, b);
  }

  /** Rearranging the neighbour values leaves the generational result unchanged. */
  lemma GenerationalPermutationInvariant(cntr: int, a: Neighbourhood, b: Neighbourhood)
    requires multiset(Values(a)) == multiset(Values(b))
    ensures Generational(cntr, a) == Generational(cntr, b)
  {
    if cntr <= 0 && CountAlive(Values(a)) == 3 {
      GenerationalBirthPermutationInvariant(cntr, a, b);
    } else {
      ConwayPermutationInvariant(cntr, a, b);
      CountAlivePermutation(Values(a), Values(b));
      GenerationalAgreesWithConway(cntr, a);
      GenerationalAgreesWithConway(cntr, b);
    }
  }

  // ------------------------------------------------------------------ blur

  /** Blur reads only the centre and the sum of the orthogonal neighbours. */
  lemma BlurDependsOnlyOnOrthogonalSum(cntr: int, a: Neighbourhood, b: Neighbourhood)
    requires OrthogonalSum(a) == OrthogonalSum(b)
    ensures Blur(cntr, a) == Blur(cntr, b)
  {
  }

  /** In particular the diagonal neighbours are ignored. */
  lemma BlurIgnoresDiagonals(cntr: int, a: Neighbourhood, b: Neighbourhood)
    requires a.N == b.N && a.E == b.E && a.S == b.S && a.W == b.W
    ensures Blur(cntr, a) == Blur(cntr, b)
  {
  }

  /** Exchanging which orthogonal neighbour holds which value does not matter. */
  lemma BlurOrthogonalSwap(cntr: int, n: Neighbourhood)
    ensures Blur(cntr, n) == Blur(cntr, n.(N := n.E, E := n.N, S := n.W, W := n.S))
  {
  }

  /** A uniform field is a fixed point of blur. */
  lemma BlurUniformFixedPoint(cntr: int, nbrs: Neighbourhood)
    requires nbrs.N == cntr && nbrs.E == cntr && nbrs.S == cntr && nbrs.W == cntr
    ensures Blur(cntr, nbrs) == cntr
  {
  }

  /** Blur never leaves the range spanned by the values it reads. */
  lemma BlurWithin(lo: int, hi: int, cntr: int, nbrs: Neighbourhood)
    requires lo <= cntr <= hi
    requires lo <= nbrs.N <= hi && lo <= nbrs.E <= hi && lo <= nbrs.S <= hi && lo <= nbrs.W <= hi
    ensures lo <= Blur(cntr, nbrs) <= hi
  {
  }

  /** Grey levels stay grey levels. */
  lemma BlurByteRange(cntr: int, nbrs: Neighbourhood)
    requires 0 <= cntr <= 255
    requires 0 <= nbrs.N <= 255 && 0 <= nbrs.E <= 255 && 0 <= nbrs.S <= 255 && 0 <= nbrs.W <= 255
    ensures 0 <= Blur(cntr, nbrs) <= 255
  {
    BlurWithin(0, 255, cntr, nbrs);
  }

  /** Blur is monotone in the centre and in the orthogonal sum. */
  lemma BlurMonotone(c1: int, c2: int, a: Neighbourhood, b: Neighbourhood)
    requires c1 <= c2 && OrthogonalSum(a) <= OrthogonalSum(b)
    ensures Blur(c1, a) <= Blur(c2, b)
  {
  }

  // -------------------------------------------------------------- negative

  /** Negative ignores the neighbourhood. */
  lemma NegativeIgnoresNeighbours(cntr: int, a: Neighbourhood, b: Neighbourhood)
    ensures Negative(cntr, a) == Negative(cntr, b)
  {
  }

  /** Taking the negative twice gives back the original value. */
  lemma NegativeInvolution(cntr: int, a: Neighbourhood, b: Neighbourhood)
    ensures Negative(Negative(cntr, a), b) == cntr
  {
  }

  /** Negative maps the grey levels 0..255 onto themselves, swapping black and white. */
  lemma NegativeByteRange(nbrs: Neighbourhood)
    ensures forall c :: 0 <= c <= 255 ==> 0 <= Negative(c, nbrs) <= 255
    ensures Negative(0, nbrs) == 255 && Negative(255, nbrs) == 0
  {
  }

  /** Every grey level is the negative of some grey level. */
  lemma NegativeOntoByteRange(v: int, nbrs: Neighbourhood)
    requires 0 <= v <= 255
    ensures exists c :: 0 <= c <= 255 && Negative(c, nbrs) == v
  {
    assert Negative(255 - v, nbrs) == v;
  }

  /** Negative reverses the order of grey levels. */
  lemma NegativeReversesOrder(c1: int, c2: int, nbrs: Neighbourhood)
    requires c1 <= c2
    ensures Negative(c2, nbrs) <= Negative(c1, nbrs)
  {
  }
}
