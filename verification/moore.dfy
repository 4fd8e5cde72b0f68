/**
  The Moore neighbourhood handed to every transition rule: the eight cells
  around the one being updated, addressed by compass direction.
 */
module Moore {

  /** The eight neighbour values of one grid cell. */
  datatype Neighbourhood = Neighbourhood(N: int, NE: int, E: int, SE: int,
                                         S: int, SW: int, W: int, NW: int)

  /** The neighbour values as a sequence, clockwise from north. */
  function Values(n: Neighbourhood): (vs: seq<int>)
  {
    [n.N, n.NE, n.E, n.SE, n.S, n.SW, n.W, n.NW]
  }

  /** Sum of the four orthogonal neighbours (north, east, south, west). */
  function OrthogonalSum(n: Neighbourhood): (s: int)
  {
    n.N + n.E + n.S + n.W
  }
}
