/**
  The largest of a non-empty sequence of values, with the facts the
  generational rule needs: it is characterised by being an attained upper
  bound, and it does not depend on the order of the values.
 */
module Maximum {

  /** The larger of two values, as the built-in `max` picks it. */
  function Max(a: int, b: int): (m: int)
    ensures m >= a && m >= b
    ensures m == a || m == b
  {
    if a >= b then a else b
  }

  /** Reference maximum of a non-empty sequence. */
  function MaxOf(s: seq<int>): (m: int)
    requires |s| > 0
    ensures forall i :: 0 <= i < |s| ==> s[i] <= m
    ensures m in s
  {
    if |s| == 1 then s[0] else Max(s[0], MaxOf(s[1..]))
  }

  /** An upper bound that occurs in the sequence is its maximum. */
  lemma MaxOfUnique(s: seq<int>, m: int)
    requires m in s
    requires forall i :: 0 <= i < |s| ==> s[i] <= m
    ensures m == MaxOf(s)
  {
    var i :| 0 <= i < |s| && s[i] == MaxOf(s);
    var j :| 0 <= j < |s| && s[j] == m;
  }

  /** Rearranging a sequence does not change its maximum. */
  lemma MaxOfPermutation(s: seq<int>, t: seq<int>)
    requires multiset(s) == multiset(t) && |s| > 0
    ensures |t| > 0 && MaxOf(s) == MaxOf(t)
  {
    assert |t| == |multiset(t)| == |multiset(s)| == |s|;
    assert MaxOf(s) in multiset(t);
    assert MaxOf(t) in multiset(s);
    var i :| 0 <= i < |t| && t[i] == MaxOf(s);
    var j :| 0 <= j < |s| && s[j] == MaxOf(t);
  }
}
