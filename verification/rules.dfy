/**
  The four per-cell transition rules of the grid simulation: `conway`,
  `generational`, `blur` and `negative`. Each takes the value of the cell
  being updated (`cntr`) and its Moore neighbourhood and returns the cell's
  value in the next generation. All are total functions on unbounded
  integers; nothing is clamped or validated.
 */
module Rules {
  import opened Moore
  import opened Liveness
  import opened Maximum

  /** The eight liveness terms, summed in compass order, give the reference count. */
  lemma CountAliveOfValues(n: Neighbourhood)
    ensures CountAlive(Values(n)) == Life(n.N) + Life(n.NE) + Life(n.E) + Life(n.SE)
                                   + Life(n.S) + Life(n.SW) + Life(n.W) + Life(n.NW)
  {
    var vs := Values(n);
    assert CountAlive(vs[8..]) == 0;
    assert CountAlive(vs[7..]) == Life(n.NW) by { assert vs[7..][1..] == vs[8..]; }
    assert CountAlive(vs[6..]) == Life(n.W) + CountAlive(vs[7..]) by { assert vs[6..][1..] == vs[7..]; }
    assert CountAlive(vs[5..]) == Life(n.SW) + CountAlive(vs[6..]) by { assert vs[5..][1..] == vs[6..]; }
    assert CountAlive(vs[4..]) == Life(n.S) + CountAlive(vs[5..]) by { assert vs[4..][1..] == vs[5..]; }
    assert CountAlive(vs[3..]) == Life(n.SE) + CountAlive(vs[4..]) by { assert vs[3..][1..] == vs[4..]; }
    assert CountAlive(vs[2..]) == Life(n.E) + CountAlive(vs[3..]) by { assert vs[2..][1..] == vs[3..]; }
    assert CountAlive(vs[1..]) == Life(n.NE) + CountAlive(vs[2..]) by { assert vs[1..][1..] == vs[2..]; }
  }

  /** Number of live neighbours, summed in the order the rules write it
      (NW, N, NE, W, E, SW, S, SE). */
  function Living(n: Neighbourhood): (k: int)
    ensures 0 <= k <= 8
    ensures k == CountAlive(Values(n))
  {
    CountAliveOfValues(n);
    Life(n.NW) + Life(n.N) + Life(n.NE)
    + Life(n.W) + Life(n.E)
    + Life(n.SW) + Life(n.S) + Life(n.SE)
  }

  /** Largest raw neighbour value (dead ones included), taken in the order
      the generational rule lists them (NW, N, NE, W, SE, S, SW, E). */
  function Largest(n: Neighbourhood): (m: int)
    ensures forall i :: 0 <= i < |Values(n)| ==> Values(n)[i] <= m
    ensures m in Values(n)
  {
    Max(Max(Max(Max(Max(Max(Max(n.NW, n.N), n.NE), n.W), n.SE), n.S), n.SW), n.E)
  }

  /** The generational rule's maximum is the reference maximum of the neighbour values. */
  lemma LargestIsMaxOf(n: Neighbourhood)
    ensures Largest(n) == MaxOf(Values(n))
  {
    MaxOfUnique(Values(n), Largest(n));
  }

  /** Conway's game of life. A live cell survives with its value unchanged
      when it has two or three live neighbours; a dead cell with exactly
      three live neighbours is born with value 100; every other cell
      becomes 0. */
  function Conway(cntr: int, nbrs: Neighbourhood): (r: int)
    ensures r == 0 || r == 100 || r == cntr
    ensures r > 0 <==> NextAlive(cntr > 0, CountAlive(Values(nbrs)))
    ensures r > 0 && cntr > 0 ==> r == cntr
    ensures r > 0 && cntr <= 0 ==> r == 100
    ensures r <= 0 ==> r == 0
  {
    var living := Living(nbrs);
    if Life(cntr) == 1 then
      if living == 2 || living == 3 then cntr else 0
    else
      if living == 3 then 100 else 0
  }

  /** Conway's game of life where a live value is the cell's generation: a
      newborn takes one more than the largest neighbour value. */
  function Generational(cntr: int, nbrs: Neighbourhood): (r: int)
    ensures r > 0 <==> NextAlive(cntr > 0, CountAlive(Values(nbrs)))
    ensures r > 0 && cntr > 0 ==> r == cntr
    ensures r > 0 && cntr <= 0 ==> r >= 2
    ensures r > 0 && cntr <= 0 ==>
              (forall i :: 0 <= i < 8 ==> Values(nbrs)[i] < r)
              && exists i :: 0 <= i < 8 && Values(nbrs)[i] > 0 && r == Values(nbrs)[i] + 1
    ensures r <= 0 ==> r == 0
  {
    var living := Living(nbrs);
    var largest := Largest(nbrs);
    if Life(cntr) == 1 then
      if living == 2 || living == 3 then cntr else 0
    else
      if living == 3 then
        CountAlivePositive(Values(nbrs));
        1 + largest
      else 0
  }

  /** Image blur: the cell moves halfway towards the average of its four
      orthogonal neighbours, with floor division at both steps. */
  function Blur(cntr: int, nbrs: Neighbourhood): (r: int)
    ensures 8 * r <= 4 * cntr + OrthogonalSum(nbrs) < 8 * r + 8
  {
    var avg := (nbrs.N + nbrs.E + nbrs.S + nbrs.W) / 4;
    (cntr + avg) / 2
  }

  /** Photographic negative of a grey level; the neighbourhood is unused. */
  function Negative(cntr: int, nbrs: Neighbourhood): (r: int)
    ensures r + cntr == 255
    ensures 0 <= cntr <= 255 <==> 0 <= r <= 255
  {
    255 - cntr
  }
}
