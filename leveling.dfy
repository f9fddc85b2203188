/** The level curve of UserService: calculateLevel and calculateExperienceForNextLevel.

    The source computes Math.floor(Math.sqrt(experience / 100)) + 1 in floating point. For an
    integer experience e >= 0 and an integer k >= 0, k * k <= e / 100 holds over the reals exactly
    when k * k <= e div 100, so the floor of the square root is the integer square root of
    e div 100 and the curve is modelled without floats. */
module Leveling {

  /** Integer square root: the largest r with r * r <= n. */
  function Isqrt(n: nat): (r: nat)
    ensures r * r <= n < (r + 1) * (r + 1)
  {
    if n == 0 then 0
    else
      var s := Isqrt(n - 1);
      if (s + 1) * (s + 1) <= n then s + 1 else s
  }

  /** Experience needed to reach the level after `level`: level * level * 100. */
  function ExperienceForNextLevel(level: int): (xp: int)
    ensures xp >= 0
    ensures xp == 0 <==> level == 0
  {
    SquareNonNegative(level);
    level * level * 100
  }

  /** The level reached with `experience` points of experience. The result is bracketed by the
      experience thresholds of the level before it and of itself, which is what the profile
      screen's progress bar relies on. */
  function CalculateLevel(experience: nat): (level: nat)
    ensures level >= 1
    ensures ExperienceForNextLevel(level - 1) <= experience < ExperienceForNextLevel(level)
  {
    var k := Isqrt(experience / 100);
    BracketOfRoot(experience, k);
    k + 1
  }

  lemma SquareNonNegative(x: int)
    ensures x * x >= 0
  {
    if x < 0 {
      assert x * x == (-x) * (-x);
    }
  }

  /** Helper for CalculateLevel: the root of experience div 100 brackets experience. */
  lemma BracketOfRoot(experience: nat, k: nat)
    requires k * k <= experience / 100 < (k + 1) * (k + 1)
    ensures k * k * 100 <= experience < (k + 1) * (k + 1) * 100
  {
    var q := experience / 100;
    assert experience == q * 100 + experience % 100;
    assert k * k * 100 <= q * 100;
    assert q + 1 <= (k + 1) * (k + 1);
    assert (q + 1) * 100 <= (k + 1) * (k + 1) * 100;
  }

  /** The thresholds grow strictly with the level, from ExperienceForNextLevel(0) == 0 up. */
  lemma ExperienceForNextLevelIncreasing(a: int, b: int)
    requires 0 <= a < b
    ensures ExperienceForNextLevel(a) < ExperienceForNextLevel(b)
  {
    assert a * a <= a * b;
    assert a * b < b * b;
  }

  /** The bracket determines the level: any level whose bracket holds the experience is the one
      CalculateLevel returns. */
  lemma LevelIsUnique(experience: nat, level: nat)
    requires level >= 1
    requires ExperienceForNextLevel(level - 1) <= experience < ExperienceForNextLevel(level)
    ensures CalculateLevel(experience) == level
  {
    var l := CalculateLevel(experience);
    if l < level {
      if l < level - 1 {
        ExperienceForNextLevelIncreasing(l, level - 1);
      }
      assert false;
    } else if l > level {
      if level < l - 1 {
        ExperienceForNextLevelIncreasing(level, l - 1);
      }
      assert false;
    }
  }

  /** More experience never means a lower level. */
  lemma LevelMonotone(e1: nat, e2: nat)
    requires e1 <= e2
    ensures CalculateLevel(e1) <= CalculateLevel(e2)
  {
    var l1, l2 := CalculateLevel(e1), CalculateLevel(e2);
    if l1 > l2 {
      if l2 < l1 - 1 {
        ExperienceForNextLevelIncreasing(l2, l1 - 1);
      }
      assert false;
    }
  }

  /** Experience 0 is level 1. */
  lemma LevelOfZero()
    ensures CalculateLevel(0) == 1
  {
    assert Isqrt(0) == 0;
  }

  /** The profile's progress values: experience gained inside the current level, out of the
      experience that level spans, is at least 0 and less than the whole span. */
  lemma ProgressWithinLevel(experience: nat)
    ensures var level := CalculateLevel(experience);
      0 <= experience - ExperienceForNextLevel(level - 1)
        < ExperienceForNextLevel(level) - ExperienceForNextLevel(level - 1)
  {
  }
}
