/** The level curve: `level` and `untilNextLevel` derived from `experience`.
    The source takes a floating-point square root; here it is the integer
    square root, which gives the same value for every argument the service
    can reach (at most 2,000,002,500, well below 2^53). */
module Level {

  /** Largest experience the validation admits. */
  const MaxExperience := 10000000
  /** Highest level a validated experience can reach. */
  const MaxLevel := 446
  /** `Integer.MAX_VALUE`, the bound of the Java `int` arithmetic. */
  const Int32Max := 0x7fff_ffff

  lemma MulMonotone(a: nat, b: nat, c: nat, d: nat)
    requires a <= c && b <= d
    ensures a * b <= c * d
  {
    assert a * b <= c * b;
    assert c * b <= c * d;
  }

  function Square(x: int): int { x * x }

  lemma SquareMonotone(a: nat, b: nat)
    requires a <= b
    ensures Square(a) <= Square(b)
  {
    MulMonotone(a, a, b, b);
  }

  /** From the integer square root of n / 4 to the bracket of n between
      two consecutive even squares. */
  lemma IsqrtStep(n: nat, s: nat)
    requires Square(s) <= n / 4 < Square(s + 1)
    ensures Square(2 * s) <= n < Square(2 * s + 2)
  {
    assert Square(2 * s) == 4 * Square(s);
    assert Square(2 * s + 2) == 4 * Square(s + 1);
  }

  /** Integer square root: the largest `r` with `r * r <= n`. */
  function Isqrt(n: nat): (r: nat)
    ensures Square(r) <= n < Square(r + 1)
  {
    if n == 0 then 0
    else
      var s := Isqrt(n / 4);
      IsqrtStep(n, s);
      if Square(2 * s + 1) <= n then 2 * s + 1 else 2 * s
  }

  /** The experience at which level `l` begins: 50 * l * (l + 1). */
  function Threshold(l: int): int {
    50 * l * (l + 1)
  }

  lemma ThresholdMonotone(a: nat, b: nat)
    requires a <= b
    ensures Threshold(a) <= Threshold(b)
  {
    MulMonotone(a, a + 1, b, b + 1);
  }

  /** The square the level formula compares against: the threshold of level
      `l` is where 2500 + 200 * exp reaches (100 * l + 50)^2. */
  lemma ThresholdSquare(l: int)
    ensures Square(100 * l + 50) == 200 * Threshold(l) + 2500
  {
  }

  /** Level `l` spans 100 * (l + 1) points of experience. */
  lemma ThresholdGap(l: int)
    ensures Threshold(l + 1) - Threshold(l) == 100 * (l + 1)
  {
  }

  /** `level` is the level of `exp`: the experience has reached the
      threshold of `level` and not yet the threshold of the next one. */
  predicate IsLevel(exp: int, level: int) {
    0 <= level && Threshold(level) <= exp < Threshold(level + 1)
  }

  /** The integer square root of 2500 + 200 * exp is at least 50. */
  lemma RootAtLeast50(exp: int, s: nat)
    requires 0 <= exp && Square(s) <= 2500 + 200 * exp < Square(s + 1)
    ensures 50 <= s
  {
    if s < 50 {
      SquareMonotone(s + 1, 50);
    }
  }

  /** The level formula applied to the integer square root `s` of
      2500 + 200 * exp lands in the bracket of `exp`. */
  lemma LevelBracket(exp: int, s: nat)
    requires 0 <= exp && Square(s) <= 2500 + 200 * exp < Square(s + 1) && 50 <= s
    ensures IsLevel(exp, (s - 50) / 100)
  {
    var level := (s - 50) / 100;
    assert 100 * level + 50 <= s < 100 * level + 150;
    assert Threshold(level) <= exp by {
      SquareMonotone(100 * level + 50, s);
      ThresholdSquare(level);
    }
    assert exp < Threshold(level + 1) by {
      SquareMonotone(s + 1, 100 * (level + 1) + 50);
      ThresholdSquare(level + 1);
    }
  }

  /** No level beyond `MaxLevel` is reachable with a validated experience. */
  lemma LevelBound(exp: int, level: int)
    requires exp <= MaxExperience && IsLevel(exp, level)
    ensures level <= MaxLevel
  {
    if level > MaxLevel {
      ThresholdMonotone(MaxLevel + 1, level);
    }
  }

  /** `calculateLevel`: `(int) (Math.sqrt(2500 + 200 * exp) - 50) / 100`.
      The cast truncates `sqrt - 50`, which is never negative here, so it is
      `isqrt - 50`; the integer division then has a non-negative dividend and
      Java's truncating `/` agrees with Dafny's. */
  function LevelOf(exp: int): (level: int)
    requires 0 <= exp <= MaxExperience
    ensures IsLevel(exp, level)
    ensures level <= MaxLevel
  {
    var s := Isqrt(2500 + 200 * exp);
    RootAtLeast50(exp, s);
    LevelBracket(exp, s);
    LevelBound(exp, (s - 50) / 100);
    (s - 50) / 100
  }

  /** `calculateUntilNextLevel`: `50 * (level + 1) * (level + 2) - exp`,
      the experience still missing to reach the next level. */
  function UntilNextLevel(exp: int, level: int): (r: int)
    ensures IsLevel(exp, level) ==> 1 <= r <= 100 * (level + 1)
    ensures IsLevel(exp, level) ==> IsLevel(exp + r, level + 1) && !IsLevel(exp + r - 1, level + 1)
  {
    ThresholdGap(level);
    ThresholdGap(level + 1);
    50 * (level + 1) * (level + 2) - exp
  }

  /** The formula of `calculateUntilNextLevel` is the distance to the
      next threshold. */
  lemma UntilNextLevelIsGap(exp: int, l: int)
    ensures UntilNextLevel(exp, l) == Threshold(l + 1) - exp
  {
  }

  /** At most one level fits an experience value. */
  lemma LevelUnique(exp: int, l1: int, l2: int)
    requires IsLevel(exp, l1) && IsLevel(exp, l2)
    ensures l1 == l2
  {
    if l1 < l2 {
      ThresholdMonotone(l1 + 1, l2);
    } else if l2 < l1 {
      ThresholdMonotone(l2 + 1, l1);
    }
  }

  /** Of two experience values, the larger one has the larger level. */
  lemma IsLevelMonotone(e1: int, e2: int, l1: int, l2: int)
    requires e1 <= e2 && IsLevel(e1, l1) && IsLevel(e2, l2)
    ensures l1 <= l2
  {
    if l2 < l1 {
      ThresholdMonotone(l2 + 1, l1);
    }
  }

  /** The level never decreases as experience grows. */
  lemma LevelMonotone(e1: int, e2: int)
    requires 0 <= e1 <= e2 <= MaxExperience
    ensures 0 <= LevelOf(e1) <= LevelOf(e2)
  {
    IsLevelMonotone(e1, e2, LevelOf(e1), LevelOf(e2));
  }

  /** What is still missing to the next level is positive and at most the
      width of the current level, 100 * (level + 1). */
  lemma UntilNextLevelBounds(exp: int)
    requires 0 <= exp <= MaxExperience
    ensures 1 <= UntilNextLevel(exp, LevelOf(exp)) <= 100 * (LevelOf(exp) + 1)
  {
    var l := LevelOf(exp);
    UntilNextLevelIsGap(exp, l);
    ThresholdGap(l);
  }

  /** A new player with no experience is at level 0 and needs 100 points. */
  lemma LevelAtZero()
    ensures LevelOf(0) == 0 && UntilNextLevel(0, LevelOf(0)) == 100
  {
    assert IsLevel(0, 0);
    LevelUnique(0, LevelOf(0), 0);
  }

  /** The Java `int` arithmetic of both formulas never overflows on a
      validated experience. */
  lemma LevelArithmeticFitsInt(exp: int)
    requires 0 <= exp <= MaxExperience
    ensures 2500 + 200 * exp <= Int32Max
    ensures 50 * (LevelOf(exp) + 1) * (LevelOf(exp) + 2) <= Int32Max
  {
    var l := LevelOf(exp);
    ThresholdMonotone(l + 1, MaxLevel + 1);
    assert 50 * (l + 1) * (l + 2) == Threshold(l + 1);
  }
}
