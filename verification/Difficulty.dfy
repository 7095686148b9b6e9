/** The difficulty rule.  The comment in the source speaks of a recalculation every ten blocks;
    the code recalculates at every block once ten exist, over a sliding window. */
module Difficulty {
  import opened Types

  const TARGET_BLOCK_TIME := 60
  const INTERVAL := 10
  const EXPECTED_TIME := TARGET_BLOCK_TIME * INTERVAL
  const INITIAL := 4
  const FALLBACK := 2
  const MAX_DIFFICULTY := 6

  function Max(a: int, b: int): int { if a < b then b else a }
  function Min(a: int, b: int): int { if a < b then a else b }

  predicate Fast(span: int) { 4 * span < 3 * EXPECTED_TIME }
  predicate Slow(span: int) { 4 * span > 5 * EXPECTED_TIME }

  function Retarget(current: int, span: int): int {
    var adjusted :=
      if Fast(span) then current * 2
      else if Slow(span) then Max(1, current / 2)
      else current;
    Min(Max(1, Min(adjusted, current * 4)), MAX_DIFFICULTY)
  }

  /** The difficulty for the block after the last one of `table`. */
  function Current(table: map<int, Header>): int {
    var height := Top(table);
    if height < INTERVAL then INITIAL
    else if height - INTERVAL + 1 !in table || height !in table then FALLBACK
    else Retarget(table[height].difficulty, table[height].timestamp - table[height - INTERVAL + 1].timestamp)
  }

  /** The difficulties a mined block can have. */
  predicate Legal(d: int) { d == 1 || d == 2 || d == 3 || d == 4 || d == 6 }

  /** A fast window never yields less than a slower one. */
  lemma RetargetAntitone(current: int, span: int, span': int)
    requires 1 <= current && span <= span'
    ensures Retarget(current, span') <= Retarget(current, span)
  {
    assert current / 2 <= current;
  }

  /** What the rule does to the legal values: below 450 seconds they double up to 6, above 750 they halve
      (rounding down) to at least 1, in between they stay. */
  lemma RetargetLegal(current: int, span: int)
    requires Legal(current)
    ensures Legal(Retarget(current, span))
    ensures span < 450 ==> Retarget(current, span) == (if current <= 3 then 2 * current else 6)
    ensures 450 <= span <= 750 ==> Retarget(current, span) == current
    ensures span > 750 ==> 2 * Retarget(current, span) <= current < 2 * Retarget(current, span) + 2 || current == Retarget(current, span) == 1
  {
  }

  function Repeated(current: int, spans: seq<int>): int
    decreases |spans|
  {
    if spans == [] then current else Repeated(Retarget(current, spans[0]), spans[1..])
  }

  /** The two extremes of the legal values are reached quickly from anywhere:
      three fast windows in a row give 6, two slow ones give 1, and from there they stay. */
  lemma {:induction false} RetargetLimits(current: int, spans: seq<int>)
    requires Legal(current)
    ensures Legal(Repeated(current, spans))
    ensures |spans| >= 3 && (forall i :: 0 <= i < |spans| ==> Fast(spans[i])) ==> Repeated(current, spans) == 6
    ensures |spans| >= 2 && (forall i :: 0 <= i < |spans| ==> Slow(spans[i])) ==> Repeated(current, spans) == 1
    decreases |spans|
  {
    if spans != [] {
      var next := Retarget(current, spans[0]);
      RetargetLimits(next, spans[1..]);
      if |spans| <= 3 {
        assert Repeated(current, spans) == Repeated(next, spans[1..]);
        if |spans| >= 2 {
          var next2 := Retarget(next, spans[1]);
          assert spans[1..][1..] == spans[2..];
          assert Repeated(next, spans[1..]) == Repeated(next2, spans[2..]);
          if |spans| == 3 {
            assert spans[2..][1..] == [];
            assert Repeated(next2, spans[2..]) == Retarget(next2, spans[2]);
          }
        }
      }
    }
  }
}
