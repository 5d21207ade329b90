/** Level thresholds of the cooking "career": five named levels, each reached at a recipe count. */
module LevelConfig {
  import opened Wrappers

  const LEVEL_NAMES: seq<string> := ["狗狗学徒", "初级狗狗厨师", "中级狗狗厨霸", "高级狗狗厨王", "特级狗狗厨神"]
  const LEVEL_COUNTS: seq<int> := [10, 30, 50, 100, 200]

  /** Java's `Integer.MAX_VALUE`. */
  const INT_MAX: int := 0x7fff_ffff

  /** Java's `Math.min`. */
  function Min(a: int, b: int): (m: int)
    ensures m <= a && m <= b && (m == a || m == b)
  {
    if a < b then a else b
  }

  /** `size()`: the shorter of the two arrays. */
  function Size(): (n: nat)
    ensures n <= |LEVEL_NAMES| && n <= |LEVEL_COUNTS|
    ensures n == |LEVEL_NAMES| || n == |LEVEL_COUNTS|
    ensures n == 5
  {
    Min(|LEVEL_NAMES|, |LEVEL_COUNTS|)
  }

  /** The thresholds strictly increase. */
  lemma CountsIncreasing(i: int, j: int)
    requires 0 <= i < j < Size()
    ensures LEVEL_COUNTS[i] < LEVEL_COUNTS[j]
  {
  }

  /** Reference definition of the highest level reached, scanning down from level `i`. */
  function ReachedAtOrBelow(count: int, i: int): (r: int)
    requires -1 <= i < Size()
    ensures -1 <= r <= i
    decreases i + 1
  {
    if i < 0 then -1
    else if count >= LEVEL_COUNTS[i] then i
    else ReachedAtOrBelow(count, i - 1)
  }

  /** The largest level whose threshold `count` meets, or -1 below the first threshold. */
  function HighestReachedIndex(count: int): (r: int)
    ensures -1 <= r < Size()
  {
    ReachedAtOrBelow(count, Size() - 1)
  }

  /** The reference definition is "largest index whose threshold is met". */
  lemma {:induction false} ReachedAtOrBelowSpec(count: int, i: int)
    requires -1 <= i < Size()
    ensures var r := ReachedAtOrBelow(count, i);
      (r >= 0 ==> count >= LEVEL_COUNTS[r]) &&
      (forall k :: r < k <= i ==> count < LEVEL_COUNTS[k])
    decreases i + 1
  {
    if i >= 0 && count < LEVEL_COUNTS[i] {
      ReachedAtOrBelowSpec(count, i - 1);
    }
  }

  lemma HighestReachedSpec(count: int)
    ensures var r := HighestReachedIndex(count);
      (r == -1 <==> count < LEVEL_COUNTS[0]) &&
      (r >= 0 ==> count >= LEVEL_COUNTS[r]) &&
      (r + 1 < Size() ==> count < LEVEL_COUNTS[r + 1])
  {
    ReachedAtOrBelowSpec(count, Size() - 1);
  }

  /** `getHighestReachedIndex`: the ascending scan that stops at the first unmet threshold
      computes the highest level reached. */
  method GetHighestReachedIndex(recipeCount: int) returns (reached: int)
    ensures reached == HighestReachedIndex(recipeCount)
    ensures -1 <= reached < Size()
    ensures reached == -1 <==> recipeCount < LEVEL_COUNTS[0]
  {
    reached := -1;
    var size := Size();
    var i := 0;
    while i < size
      invariant 0 <= i <= size
      invariant reached == i - 1
      invariant forall k :: 0 <= k < i ==> recipeCount >= LEVEL_COUNTS[k]
    {
      if recipeCount >= LEVEL_COUNTS[i] {
        reached := i;
      } else {
        break;
      }
      i := i + 1;
    }
    HighestReachedSpec(recipeCount);
    var h := HighestReachedIndex(recipeCount);
    if reached < h {
      CountsIncreasing(reached + 1, h);
    }
  }

  /** A larger recipe count never yields a lower level. */
  lemma HighestReachedMonotone(c1: int, c2: int)
    requires c1 <= c2
    ensures HighestReachedIndex(c1) <= HighestReachedIndex(c2)
  {
    HighestReachedSpec(c1);
    HighestReachedSpec(c2);
    var r1, r2 := HighestReachedIndex(c1), HighestReachedIndex(c2);
    if r2 < r1 {
      CountsIncreasing(r2 + 1, r1);
    }
  }

  /** Reference definition of `getLevelIndex`: the first index from `i` on whose name matches. */
  function IndexFrom(name: string, i: nat): (r: int)
    requires i <= Size()
    ensures r == -1 || i <= r < Size()
    ensures r >= 0 ==> LEVEL_NAMES[r] == name && forall k :: i <= k < r ==> LEVEL_NAMES[k] != name
    ensures r == -1 ==> forall k :: i <= k < Size() ==> LEVEL_NAMES[k] != name
    decreases Size() - i
  {
    if i == Size() then -1
    else if LEVEL_NAMES[i] == name then i
    else IndexFrom(name, i + 1)
  }

  function LevelIndex(name: Option<string>): (r: int)
    ensures -1 <= r < Size()
  {
    match name
    case None => -1
    case Some(n) => IndexFrom(n, 0)
  }

  /** `getLevelIndex`: -1 for null or an unknown name, otherwise the index of the exact match. */
  method GetLevelIndex(name: Option<string>) returns (r: int)
    ensures r == LevelIndex(name)
    ensures r == -1 <==> name.None? || forall k :: 0 <= k < Size() ==> LEVEL_NAMES[k] != name.value
    ensures r >= 0 ==> name == Some(LEVEL_NAMES[r])
  {
    if name.None? {
      return -1;
    }
    var size := Size();
    var i := 0;
    while i < size
      invariant 0 <= i <= size
      invariant forall k :: 0 <= k < i ==> LEVEL_NAMES[k] != name.value
    {
      if name.value == LEVEL_NAMES[i] {
        return i;
      }
      i := i + 1;
    }
    return -1;
  }

  /** `getLevelName`: the name for an in-range index, null otherwise. */
  function GetLevelName(index: int): (r: Option<string>)
    ensures r.Some? <==> 0 <= index < Size()
    ensures r.Some? ==> r.value in LEVEL_NAMES
  {
    if 0 <= index < Size() then Some(LEVEL_NAMES[index]) else None
  }

  /** `getRequiredCount`: the threshold for an in-range index, `Integer.MAX_VALUE` otherwise. */
  function GetRequiredCount(index: int): (r: int)
    ensures 0 <= index < Size() ==> r == LEVEL_COUNTS[index]
    ensures !(0 <= index < Size()) ==> r == INT_MAX
    ensures r >= LEVEL_COUNTS[0]
  {
    if 0 <= index < Size() then LEVEL_COUNTS[index] else INT_MAX
  }

  /** Names and indices are inverse: every valid index survives the trip through its name. */
  lemma NameIndexRoundTrip(i: int)
    requires 0 <= i < Size()
    ensures LevelIndex(GetLevelName(i)) == i
  {
    assert forall k, l :: 0 <= k < l < Size() ==> LEVEL_NAMES[k] != LEVEL_NAMES[l];
  }
}
