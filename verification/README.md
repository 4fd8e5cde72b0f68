# Cellular-automaton transition rules

A Dafny model of the per-cell transition rules of a grid simulation
(`project1/rules.py`). A rule receives the value of the cell being updated
(`cntr`) and its Moore neighbourhood — eight integer values addressed `N, NE,
E, SE, S, SW, W, NW` — and returns the cell's value in the next generation.
The four rules are:

- `conway`: Conway's game of life (B3/S23). Positive values are alive, a
  survivor keeps its value, a newborn gets 100 and every other cell becomes 0.
- `generational`: the same life rule, except that a newborn gets one more than
  the largest neighbour value, so live values record a generation.
- `blur`: the cell moves halfway towards the average of its four orthogonal
  neighbours. Both divisions are floor divisions.
- `negative`: the photographic negative `255 - cntr`. The neighbourhood is not used.

Files:

- `moore.dfy` (module `Moore`): the `Neighbourhood` datatype. `Values` lists the
  eight neighbours clockwise from north.
- `liveness.dfy` (module `Liveness`): the liveness helper `Life` and a reference
  count `CountAlive` of the live values in any sequence. It also holds the
  B3/S23 condition `NextAlive` and the proof that the count does not depend
  on the order of the values.
- `maximum.dfy` (module `Maximum`): a reference maximum `MaxOf` of any non-empty
  sequence. It is proved independent of the order of the values.
- `rules.dfy` (module `Rules`): the four rules, plus the live-neighbour sum
  `Living` and the neighbour maximum `Largest` they use.
- `properties.dfy` (module `RuleProperties`): behavioural lemmas about the rules.
- `scenarios.dfy` (module `Scenarios`): concrete cells worked through each rule.

The contracts of the life rules, of the neighbour maximum and of `blur` are
stated against an independent reference, not against the expressions their
bodies compute:

- the life rules use the reference live count of `Values(nbrs)` and the B3/S23
  condition;
- the neighbour maximum is characterised as an upper bound that is attained;
- `blur` is characterised as the floor of the weighted average
  `(4*cntr + N + E + S + W) / 8`, which is what the two floor divisions compose to.

The contract of `negative` is its defining equation (value and result add up
to 255), plus the fact that the value is a grey level exactly when the result
is. Its partner lemmas are `NegativeInvolution` and `NegativeOntoByteRange`.

Python's `//` with divisor 4 or 2 rounds towards negative infinity. Dafny's
`/` on `int` is Euclidean, and the two agree for a positive divisor. So
`blur` is modelled with `/` directly, negative sums included. Python integers
are unbounded, like Dafny's `int`, so no wrap-around is modelled.

The comment at project1/rules.py:18-19 says the rules read a state of 0 as
dead and states of 1 and above as alive. It says nothing about negative
states. The code tests `cell_value > 0`, so every value `<= 0` is dead. The
model follows the code.

The comment above `generational` says a newborn takes one more than the
largest value among its live neighbours. The code takes the maximum over all
eight raw values, dead ones included. In the birth case at least one
neighbour is positive, so the two agree. `Rules.Generational` states this:
the newborn is one more than some live neighbour's value and exceeds every
neighbour.

The same comment describes live generational values as lying in 1-100. The
code does not keep them there: a newborn is one more than its largest
neighbour, so three neighbours of value 100 produce a newborn of 101, and
values keep growing with each generation. The model follows the code and
keeps no bound; `Scenarios.GenerationalNewbornPastHundred` shows the 101.

## Model

| member | source | states |
|---|---|---|
| Liveness.Life | project1/rules.py:34-38 | the liveness helper returns only 0 or 1, and 1 exactly when the value is positive |
| Liveness.CountAlive | project1/rules.py:43-45 | the number of live values in a sequence never exceeds its length |
| Liveness.CountAlivePositive | project1/rules.py:43-45 | the live count is positive exactly when some value in the sequence is positive |
| Liveness.CountAlivePermutation | project1/rules.py:43-45 | two sequences holding the same values in any order have the same live count |
| Rules.Living | project1/rules.py:43-45 | the sum of the eight liveness terms lies in 0..8 and equals the number of positive neighbours |
| Rules.Largest | project1/rules.py:100-101 | the largest raw neighbour value is at least every neighbour value and is one of them |
| Maximum.MaxOf | project1/rules.py:100-101 | the maximum of a non-empty sequence is at least every element and is one of them |
| Maximum.MaxOfPermutation | project1/rules.py:100-101 | two rearrangements of the same values have the same maximum |
| Rules.LargestIsMaxOf | project1/rules.py:100-101 | the maximum taken in the rule's own argument order equals the reference maximum of the neighbour values |
| Rules.Conway | project1/rules.py:29-67 | the result is 0, 100 or the centre; it is positive exactly when B3/S23 holds for the centre's liveness and the live-neighbour count; a live result keeps a live centre's value and is 100 for a newborn; a dead result is 0 |
| Rules.Generational | project1/rules.py:82-122 | the result is positive exactly when B3/S23 holds; a survivor keeps its value; a newborn is at least 2, exceeds every neighbour and is one more than some live neighbour's value; a dead result is 0 |
| Rules.Blur | project1/rules.py:136-142 | the result is the floor of (4*cntr + N + E + S + W) / 8 |
| Rules.Negative | project1/rules.py:154-155 | the cell value and its negative always add up to 255, and the value is a grey level in [0, 255] exactly when its negative is |
| RuleProperties.ConwayLiveCentre | project1/rules.py:51-58 | a live centre survives unchanged with 2 or 3 live neighbours and becomes 0 otherwise |
| RuleProperties.ConwayDeadCentre | project1/rules.py:61-67 | a dead centre becomes 100 with exactly 3 live neighbours and 0 otherwise |
| RuleProperties.ConwayDependsOnlyOnCount | project1/rules.py:43-67 | neighbourhoods with equal live counts give the same conway result |
| RuleProperties.ConwayPermutationInvariant | project1/rules.py:43-67 | rearranging the neighbour values does not change the conway result |
| RuleProperties.GenerationalAgreesWithConway | project1/rules.py:106-122 | outside the birth case (dead centre, exactly 3 live neighbours) generational equals conway |
| RuleProperties.GenerationalBirth | project1/rules.py:100-120 | in the birth case the result is 1 + the largest neighbour, at least 2 and above every neighbour; it equals conway's 100 exactly when that largest value is 99 |
| RuleProperties.GenerationalSameLivenessAsConway | project1/rules.py:106-122 | generational and conway agree on whether the cell is alive next |
| RuleProperties.LargestPermutationInvariant | project1/rules.py:100-101 | the largest neighbour value does not depend on which neighbour holds it |
| RuleProperties.GenerationalBirthPermutationInvariant | project1/rules.py:118-120 | in the birth case, rearranging the neighbour values gives the same newborn value |
| RuleProperties.GenerationalPermutationInvariant | project1/rules.py:96-122 | rearranging the neighbour values does not change the generational result |
| RuleProperties.BlurDependsOnlyOnOrthogonalSum | project1/rules.py:139-142 | blur depends only on the centre and N + E + S + W |
| RuleProperties.BlurIgnoresDiagonals | project1/rules.py:139 | the diagonal neighbours NE, SE, SW, NW do not affect blur |
| RuleProperties.BlurOrthogonalSwap | project1/rules.py:139 | exchanging the orthogonal neighbours' values does not change blur |
| RuleProperties.BlurUniformFixedPoint | project1/rules.py:139-142 | a cell whose orthogonal neighbours all equal it keeps its value |
| RuleProperties.BlurWithin | project1/rules.py:139-142 | when the centre and the orthogonal neighbours all lie in [lo, hi], so does the result |
| RuleProperties.BlurByteRange | project1/rules.py:139-142 | grey levels in [0, 255] blur to a grey level in [0, 255] |
| RuleProperties.BlurMonotone | project1/rules.py:139-142 | a larger centre or a larger orthogonal sum never gives a smaller result |
| RuleProperties.NegativeIgnoresNeighbours | project1/rules.py:154-155 | the negative does not depend on the neighbourhood |
| RuleProperties.NegativeInvolution | project1/rules.py:154-155 | the negative of the negative is the original value |
| RuleProperties.NegativeByteRange | project1/rules.py:154-155 | grey levels in [0, 255] map into [0, 255], 0 to 255 and 255 to 0 |
| RuleProperties.NegativeOntoByteRange | project1/rules.py:154-155 | every grey level in [0, 255] is the negative of some grey level in [0, 255] |
| RuleProperties.NegativeReversesOrder | project1/rules.py:154-155 | a larger value has a smaller or equal negative |
| Scenarios.IsolatedCellDies | project1/rules.py:51-58 | a live cell with no live neighbours becomes 0 under both life rules |
| Scenarios.BirthFromThreeNeighbours | project1/rules.py:61-67 | a dead cell with three live neighbours of value 1 becomes 100 under conway and 2 under generational |
| Scenarios.GenerationalNewbornValue | project1/rules.py:118-120 | live neighbours 5, 2 and 3 produce a newborn of value 6 |
| Scenarios.GenerationalNewbornPastHundred | project1/rules.py:76-120 | three neighbours of value 100 produce a newborn of 101, so generation values are not kept within 1-100 |
| Scenarios.BlurExamples | project1/rules.py:136-142 | 100 among zeros blurs to 50; 10 among 20s blurs to 15 |
| Scenarios.NegativeExamples | project1/rules.py:154-155 | 0, 255 and 128 map to 255, 0 and 127 |

## Left out

- The `from random import random` import (project1/rules.py:1). Nothing in the file uses it.
- The grid driver that calls the rules. This covers grid storage, iterating generations, looking up neighbours, the edge or wrap-around policy and rendering. It is not part of this model. Each rule takes its neighbourhood as an input value.
- Range checks and clamping. The source does neither, so the model has no preconditions on values. The [0, 255] facts are conditional lemmas.
