/**
  Liveness as the life-based rules see it: a cell is alive exactly when its
  value is positive. This module also gives the reference definition of
  "number of live cells" over any sequence of values.
 */
module Liveness {

  /** The rules' liveness helper: 1 for a live (positive) value, 0 otherwise. */
  function Life(v: int): (r: int)
    ensures r == 0 || r == 1
    ensures r == 1 <==> v > 0
  {
    if v > 0 then 1 else 0
  }

  /** Reference count of the live values in `s`. */
  function CountAlive(s: seq<int>): (k: nat)
    ensures k <= |s|
  {
    if |s| == 0 then 0 else Life(s[0]) + CountAlive(s[1..])
  }

  /** The count is positive exactly when some value is alive. */
  lemma {:induction false} CountAlivePositive(s: seq<int>)
    ensures CountAlive(s) > 0 <==> exists i :: 0 <= i < |s| && s[i] > 0
    decreases |s|
  {
    if |s| > 0 {
      CountAlivePositive(s[1..]);
      if s[0] <= 0 && CountAlive(s) > 0 {
        var j :| 0 <= j < |s[1..]| && s[1..][j] > 0;
        assert s[j + 1] > 0;
      }
      if exists i :: 0 <= i < |s| && s[i] > 0 {
        var i :| 0 <= i < |s| && s[i] > 0;
        if i > 0 {
          assert s[1..][i - 1] > 0;
        }
      }
    }
  }

  /** Conway's survival/birth condition (B3/S23): whether a cell with the given
      liveness and number of live neighbours is alive in the next generation. */
  predicate NextAlive(alive: bool, liveNeighbours: int)
  {
    if alive then liveNeighbours == 2 || liveNeighbours == 3 else liveNeighbours == 3
  }

  /** Counting live values distributes over concatenation. */
  lemma {:induction false} CountAliveAppend(s: seq<int>, t: seq<int>)
    ensures CountAlive(s + t) == CountAlive(s) + CountAlive(t)
    decreases |s|
  {
    if |s| == 0 {
      assert s + t == t;
    } else {
      assert (s + t)[1..] == s[1..] + t;
      CountAliveAppend(s[1..], t);
    }
  }

  /** Cutting a sequence in two splits its live count. */
  lemma CountAliveSplit(t: seq<int>, i: int)
    requires 0 <= i <= |t|
    ensures CountAlive(t) == CountAlive(t[..i]) + CountAlive(t[i..])
  {
    assert t == t[..i] + t[i..];
    CountAliveAppend(t[..i], t[i..]);
  }

  /** The suffix from index `i` counts `t[i]` and then the suffix after it. */
  lemma CountAliveDrop(t: seq<int>, i: int)
    requires 0 <= i < |t|
    ensures CountAlive(t[i..]) == Life(t[i]) + CountAlive(t[i+1..])
  {
    assert t[i..][1..] == t[i+1..];
  }

  /** Taking one value out of a sequence lowers its live count by that value's liveness. */
  lemma CountAliveRemove(t: seq<int>, i: int)
    requires 0 <= i < |t|
    ensures CountAlive(t) == Life(t[i]) + CountAlive(t[..i] + t[i+1..])
  {
    CountAliveSplit(t, i);
    CountAliveDrop(t, i);
    CountAliveAppend(t[..i], t[i+1..]);
  }

  /** Removing the value at index `i` removes one copy of it from the multiset. */
  lemma MultisetRemove(t: seq<int>, i: int)
    requires 0 <= i < |t|
    ensures multiset(t[..i] + t[i+1..]) == multiset(t) - multiset{t[i]}
  {
    assert t == t[..i] + [t[i]] + t[i+1..];
  }

  /** Matching the first value of `s` with an equal value of a rearrangement
      `t` leaves two rearrangements of each other. */
  lemma PermutationTail(s: seq<int>, t: seq<int>, i: int)
    requires multiset(s) == multiset(t) && |s| > 0
    requires 0 <= i < |t| && t[i] == s[0]
    ensures multiset(s[1..]) == multiset(t[..i] + t[i+1..])
  {
    assert s == [s[0]] + s[1..];
    assert multiset(s) == multiset{s[0]} + multiset(s[1..]);
    MultisetRemove(t, i);
  }

  /** The live count depends only on the multiset of values, not their order. */
  lemma {:induction false} CountAlivePermutation(s: seq<int>, t: seq<int>)
    requires multiset(s) == multiset(t)
    ensures CountAlive(s) == CountAlive(t)
    decreases |s|
  {
    if |s| == 0 {
      assert |t| == |multiset(t)| == 0;
    } else {
      assert s[0] in multiset(t);
      var i :| 0 <= i < |t| && t[i] == s[0];
      PermutationTail(s, t, i);
      CountAlivePermutation(s[1..], t[..i] + t[i+1..]);
      CountAliveRemove(t, i);
    }
  }
}
