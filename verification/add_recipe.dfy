/** The recipe editor: image down-sampling and JPEG quality schedule, the level-up rule
    applied after a new recipe is saved, and the editor's list edits. */
module AddRecipe {
  import opened Wrappers
  import opened JavaText
  import LevelConfig
  import opened StepItems

  const MAX_IMAGE_LONG_EDGE: int := 1600
  const TARGET_IMAGE_BYTES: int := 600 * 1024
  const JPEG_QUALITY_START: int := 85
  const JPEG_QUALITY_MIN: int := 65
  const INT_MAX: int := 0x7fff_ffff

  // ---------------------------------------------------------------- down-sampling

  function Pow2(k: nat): (p: nat)
    ensures p >= 1
  {
    if k == 0 then 1 else 2 * Pow2(k - 1)
  }

  lemma {:induction false} Pow2Monotone(j: nat, k: nat)
    requires j <= k
    ensures Pow2(j) <= Pow2(k)
    decreases k
  {
    if j < k {
      Pow2Monotone(j, k - 1);
    }
  }

  /** Between two consecutive powers of two there is no third one. */
  lemma Pow2Between(j: nat, k: nat)
    requires Pow2(j) < Pow2(k + 1)
    ensures Pow2(j) <= Pow2(k)
  {
    if j > k {
      Pow2Monotone(k + 1, j);
    } else {
      Pow2Monotone(j, k);
    }
  }

  function MaxInt(a: int, b: int): int {
    if a < b then b else a
  }

  lemma DivAtLeast(n: int, d: int, q: int)
    requires n >= 0 && d > 0 && n / d >= q >= 0
    ensures n >= q * d
  {
    assert n == d * (n / d) + n % d;
    assert d * (n / d) >= d * q;
  }

  /** `computeInSampleSize`: the smallest power of two that brings the long edge, under integer
      division, to at most twice `maxLongEdge`. */
  method ComputeInSampleSize(width: int, height: int, maxLongEdge: int) returns (inSampleSize: int)
    requires 0 < width <= INT_MAX && 0 < height <= INT_MAX
    requires 0 < maxLongEdge <= INT_MAX / 2
    ensures exists k: nat :: inSampleSize == Pow2(k)
    ensures MaxInt(width, height) / inSampleSize <= 2 * maxLongEdge
    ensures forall j: nat :: Pow2(j) < inSampleSize ==> MaxInt(width, height) / Pow2(j) > 2 * maxLongEdge
    ensures 1 <= inSampleSize <= MaxInt(width, height)
  {
    inSampleSize := 1;
    ghost var k: nat := 0;
    var longEdge := MaxInt(width, height);
    while longEdge / inSampleSize > maxLongEdge * 2
      invariant inSampleSize == Pow2(k)
      invariant 1 <= inSampleSize <= longEdge
      invariant forall j: nat :: Pow2(j) < inSampleSize ==> longEdge / Pow2(j) > 2 * maxLongEdge
      decreases longEdge - inSampleSize
    {
      DivAtLeast(longEdge, inSampleSize, 3);
      forall j: nat | Pow2(j) < 2 * inSampleSize
        ensures longEdge / Pow2(j) > 2 * maxLongEdge
      {
        Pow2Between(j, k);
      }
      inSampleSize := inSampleSize * 2;
      k := k + 1;
    }
    inSampleSize := if inSampleSize < 1 then 1 else inSampleSize;
  }

  // ---------------------------------------------------------------- JPEG quality schedule

  /** `compressToJpegBytes`: try qualities 85, 80, ... and keep the first output of at most
      600 KiB, giving up at quality 65; `encode` is the bitmap encoder and `tried` lists the
      qualities it was called with, in order. */
  method CompressToJpegBytes(encode: int -> seq<byte>) returns (out: seq<byte>, quality: int, tried: seq<int>)
    ensures out == encode(quality)
    ensures JPEG_QUALITY_MIN <= quality <= JPEG_QUALITY_START
    ensures |out| <= TARGET_IMAGE_BYTES || quality == JPEG_QUALITY_MIN
    ensures 1 <= |tried| <= 5 && tried[|tried| - 1] == quality
    ensures forall k :: 0 <= k < |tried| ==> tried[k] == JPEG_QUALITY_START - 5 * k
    ensures forall k :: 0 <= k < |tried| - 1 ==> |encode(tried[k])| > TARGET_IMAGE_BYTES
  {
    quality := JPEG_QUALITY_START;
    tried := [];
    while true
      invariant JPEG_QUALITY_MIN <= quality <= JPEG_QUALITY_START
      invariant |tried| == (JPEG_QUALITY_START - quality) / 5 && (JPEG_QUALITY_START - quality) % 5 == 0
      invariant forall k :: 0 <= k < |tried| ==> tried[k] == JPEG_QUALITY_START - 5 * k
      invariant forall k :: 0 <= k < |tried| ==> |encode(tried[k])| > TARGET_IMAGE_BYTES
      decreases quality
    {
      out := encode(quality);
      tried := tried + [quality];
      if |out| <= TARGET_IMAGE_BYTES || quality <= JPEG_QUALITY_MIN {
        break;
      }
      quality := quality - 5;
    }
  }

  // ---------------------------------------------------------------- level-up

  predicate IsBlank(level: Option<string>) {
    level.None? || Trim(level.value) == []
  }

  /** The level a profile at `currentLevel` moves to once it owns `recipeCount` recipes, or
      `None` when it stays: a blank or unknown level jumps to the highest level reached, a known
      level advances by one when the next threshold is met. */
  function LevelUpTarget(recipeCount: int, currentLevel: Option<string>): Option<string> {
    if IsBlank(currentLevel) || LevelConfig.LevelIndex(currentLevel) < 0 then
      var reached := LevelConfig.HighestReachedIndex(recipeCount);
      if reached >= 0 then LevelConfig.GetLevelName(reached) else None
    else
      var next := LevelConfig.LevelIndex(currentLevel) + 1;
      if next < LevelConfig.Size() && recipeCount >= LevelConfig.GetRequiredCount(next)
      then LevelConfig.GetLevelName(next)
      else None
  }

  /** A level is only ever awarded once its threshold is met. */
  lemma LevelUpIsEarned(recipeCount: int, currentLevel: Option<string>)
    ensures var r := LevelUpTarget(recipeCount, currentLevel);
      r.Some? ==> 0 <= LevelConfig.LevelIndex(r) && recipeCount >= LevelConfig.LEVEL_COUNTS[LevelConfig.LevelIndex(r)]
  {
    if IsBlank(currentLevel) || LevelConfig.LevelIndex(currentLevel) < 0 {
      LevelConfig.HighestReachedSpec(recipeCount);
      var h := LevelConfig.HighestReachedIndex(recipeCount);
      if h >= 0 {
        LevelConfig.NameIndexRoundTrip(h);
      }
    } else {
      var next := LevelConfig.LevelIndex(currentLevel) + 1;
      if next < LevelConfig.Size() {
        LevelConfig.NameIndexRoundTrip(next);
      }
    }
  }

  /** From a known level the profile advances by exactly one level, or not at all; it never
      moves down and never skips. */
  lemma KnownLevelStepsByOne(recipeCount: int, currentLevel: Option<string>)
    requires LevelConfig.LevelIndex(currentLevel) >= 0
    ensures var c := LevelConfig.LevelIndex(currentLevel);
      var r := LevelUpTarget(recipeCount, currentLevel);
      (r.Some? <==> c + 1 < LevelConfig.Size() && recipeCount >= LevelConfig.LEVEL_COUNTS[c + 1]) &&
      (r.Some? ==> LevelConfig.LevelIndex(r) == c + 1)
  {
    var c := LevelConfig.LevelIndex(currentLevel);
    assert currentLevel == Some(LevelConfig.LEVEL_NAMES[c]);
    assert !IsBlank(currentLevel) by {
      assert Trim(LevelConfig.LEVEL_NAMES[c]) != [] by {
        assert !IsTrimmed(LevelConfig.LEVEL_NAMES[c][0]);
      }
    }
    if c + 1 < LevelConfig.Size() {
      LevelConfig.NameIndexRoundTrip(c + 1);
    }
  }

  /** A blank or unrecognised level is replaced by the highest level the count reaches. */
  lemma UnknownLevelJumpsToHighest(recipeCount: int, currentLevel: Option<string>)
    requires IsBlank(currentLevel) || LevelConfig.LevelIndex(currentLevel) < 0
    ensures var r := LevelUpTarget(recipeCount, currentLevel);
      (r.Some? <==> recipeCount >= LevelConfig.LEVEL_COUNTS[0]) &&
      (r.Some? ==> LevelConfig.LevelIndex(r) == LevelConfig.HighestReachedIndex(recipeCount))
  {
    LevelConfig.HighestReachedSpec(recipeCount);
    var h := LevelConfig.HighestReachedIndex(recipeCount);
    if h >= 0 {
      LevelConfig.NameIndexRoundTrip(h);
    }
  }

  /** The stored user profile. */
  class UserProfile {
    var currentLevel: Option<string>

    constructor (level: Option<string>)
      ensures currentLevel == level
    {
      currentLevel := level;
    }
  }

  /** `checkLevelUpIfNeeded`: writes the new level to the profile and returns it, or returns
      null and leaves the profile alone. */
  method CheckLevelUpIfNeeded(recipeCount: int, profile: UserProfile) returns (levelUp: Option<string>)
    modifies profile
    ensures levelUp == LevelUpTarget(recipeCount, old(profile.currentLevel))
    ensures profile.currentLevel == if levelUp.Some? then levelUp else old(profile.currentLevel)
  {
    var currentLevel := profile.currentLevel;
    if currentLevel.None? || Trim(currentLevel.value) == [] {
      var reachedIndex := LevelConfig.GetHighestReachedIndex(recipeCount);
      if reachedIndex >= 0 {
        var levelName := LevelConfig.GetLevelName(reachedIndex);
        if levelName.None? {
          return None;
        }
        profile.currentLevel := levelName;
        return levelName;
      }
      return None;
    }
    var currentIndex := LevelConfig.GetLevelIndex(currentLevel);
    if currentIndex < 0 {
      var reachedIndex := LevelConfig.GetHighestReachedIndex(recipeCount);
      if reachedIndex >= 0 {
        var levelName := LevelConfig.GetLevelName(reachedIndex);
        if levelName.None? {
          return None;
        }
        profile.currentLevel := levelName;
        return levelName;
      }
      return None;
    }
    var nextIndex := currentIndex + 1;
    if nextIndex < LevelConfig.Size() && recipeCount >= LevelConfig.GetRequiredCount(nextIndex) {
      var levelName := LevelConfig.GetLevelName(nextIndex);
      if levelName.None? {
        return None;
      }
      profile.currentLevel := levelName;
      return levelName;
    }
    return None;
  }

  // ---------------------------------------------------------------- saving and list edits

  /** The row written for a recipe (the fields `saveRecipe` sets). */
  datatype RecipeEntity = RecipeEntity(
    id: Option<int>, name: string, createdAt: int, updatedAt: int, content: string,
    coverImagePath: Option<string>, stepsJson: string, ingredientJson: string,
    categoryId: Option<int>, isFavorite: int)

  /** The entity `saveRecipe` builds: an edit keeps the row id, a positive creation time and the
      favourite flag; a new recipe is created and updated now and is not a favourite. */
  function BuildRecipeEntity(editingId: int, name: string, existingCreatedAt: int, now: int,
                             coverPath: Option<string>, stepsJson: string, ingredientJson: string,
                             categoryId: Option<int>, editingFavorite: int): (e: RecipeEntity)
    ensures e.updatedAt == now && e.name == name && e.content == []
    ensures editingId > 0 ==> e.id == Some(editingId) && e.isFavorite == editingFavorite
    ensures editingId > 0 && existingCreatedAt > 0 ==> e.createdAt == existingCreatedAt
    ensures editingId <= 0 ==> e.id.None? && e.isFavorite == 0
    ensures existingCreatedAt <= now ==> e.createdAt <= e.updatedAt
    ensures e.createdAt == now || (editingId > 0 && e.createdAt == existingCreatedAt > 0)
  {
    if editingId > 0 then
      RecipeEntity(Some(editingId), name, if existingCreatedAt > 0 then existingCreatedAt else now, now, "",
                   coverPath, stepsJson, ingredientJson, categoryId, editingFavorite)
    else
      RecipeEntity(None, name, now, now, "", coverPath, stepsJson, ingredientJson, categoryId, 0)
  }

  /** The first occurrence of `x` in `s`. */
  function FirstIndex(s: seq<string>, x: string): (i: nat)
    requires x in s
    ensures i < |s| && s[i] == x && x !in s[..i]
  {
    if s[0] == x then 0 else 1 + FirstIndex(s[1..], x)
  }

  /** Reference definition: drop the first element equal to `x`. */
  function RemoveFirst(s: seq<string>, x: string): seq<string> {
    if s == [] then []
    else if s[0] == x then s[1..]
    else [s[0]] + RemoveFirst(s[1..], x)
  }

  lemma {:induction false} RemoveFirstAt(s: seq<string>, x: string)
    ensures x !in s ==> RemoveFirst(s, x) == s
    ensures x in s ==> RemoveFirst(s, x) == s[..FirstIndex(s, x)] + s[FirstIndex(s, x) + 1..]
  {
    if s != [] && s[0] != x {
      RemoveFirstAt(s[1..], x);
      if x in s {
        assert x in s[1..];
        var i := FirstIndex(s[1..], x);
        assert s[..i + 1] == [s[0]] + s[1..][..i];
        assert s[i + 2..] == s[1..][i + 1..];
      } else {
        assert s == [s[0]] + s[1..];
      }
    }
  }

  /** Removing one occurrence takes exactly one copy of `x` out of the multiset of paths. */
  lemma {:induction false} RemoveFirstMultiset(s: seq<string>, x: string)
    requires x in s
    ensures multiset(RemoveFirst(s, x)) + multiset{x} == multiset(s)
  {
    assert s == [s[0]] + s[1..];
    if s[0] != x {
      RemoveFirstMultiset(s[1..], x);
    }
  }

  /** What Gson sees of each step when it serialises the step list: its text and its image paths,
      in list order. */
  function StepsSnapshot(steps: seq<StepItem>): (r: seq<(Option<string>, seq<string>)>)
    reads steps
    ensures |r| == |steps| && forall i :: 0 <= i < |steps| ==> r[i] == (steps[i].text, steps[i].imagePaths)
  {
    seq(|steps|, i requires 0 <= i < |steps| reads steps => (steps[i].text, steps[i].imagePaths))
  }

  /** The editor's mutable state. */
  class AddRecipeScreen {
    var steps: seq<StepItem>
    var ingredient: StepItem
    var editingId: int
    var existingCreatedAt: int
    var editingFavorite: int
    var coverPath: Option<string>
    var selectedCategoryId: Option<int>

    /** A fresh editor for a new recipe holds one empty step. */
    constructor ()
      ensures |steps| == 1 && fresh(steps[0]) && steps[0].imagePaths == [] && steps[0].text.None?
      ensures fresh(ingredient) && ingredient.imagePaths == [] && editingId == -1
    {
      var first := new StepItem();
      steps := [first];
      ingredient := new StepItem();
      editingId := -1;
      existingCreatedAt := -1;
      editingFavorite := 0;
      coverPath := None;
      selectedCategoryId := None;
    }

    /** `onDelete`: removes the step at an in-range position, otherwise changes nothing. */
    method OnDelete(position: int)
      modifies this`steps
      ensures 0 <= position < |old(steps)| ==> steps == old(steps)[..position] + old(steps)[position + 1..]
      ensures !(0 <= position < |old(steps)|) ==> steps == old(steps)
    {
      if position >= 0 && position < |steps| {
        steps := steps[..position] + steps[position + 1..];
      }
    }

    /** `removeIngredientImage`: removes only the first occurrence of `path`. */
    method RemoveIngredientImage(path: string) returns (removed: bool)
      modifies ingredient
      ensures removed == (path in old(ingredient.imagePaths))
      ensures ingredient.imagePaths == RemoveFirst(old(ingredient.imagePaths), path)
      ensures ingredient.text == old(ingredient.text)
    {
      RemoveFirstAt(ingredient.imagePaths, path);
      var paths := ingredient.imagePaths;
      var i := 0;
      removed := false;
      while i < |paths|
        invariant 0 <= i <= |paths|
        invariant path !in paths[..i]
      {
        if paths[i] == path {
          assert FirstIndex(paths, path) == i;
          ingredient.imagePaths := paths[..i] + paths[i + 1..];
          removed := true;
          break;
        }
        i := i + 1;
      }
      assert !removed ==> paths[..i] == paths;
    }

    /** `saveRecipe`: a blank name saves nothing; otherwise the ingredient text is stored, the
        entity built, and only a new recipe (never an edit) runs the level-up check. */
    method SaveRecipe(nameInput: string, ingredientText: string, now: int,
                      defaultCategoryId: Option<int>,
                      stepsToJson: seq<(Option<string>, seq<string>)> -> string,
                      ingredientToJson: (Option<string>, seq<string>) -> string,
                      recipeCountAfterInsert: int, profile: UserProfile)
      returns (saved: Option<RecipeEntity>, levelUp: Option<string>)
      modifies ingredient, profile
      ensures saved.None? <==> Trim(nameInput) == []
      ensures saved.None? ==> levelUp.None?
      ensures Trim(nameInput) == [] ==> ingredient.text == old(ingredient.text) && profile.currentLevel == old(profile.currentLevel)
      ensures saved.Some? ==> saved.value.name == Trim(nameInput) && saved.value.updatedAt == now
      ensures saved.Some? ==> saved.value == BuildRecipeEntity(editingId, Trim(nameInput), existingCreatedAt, now, coverPath,
        stepsToJson(StepsSnapshot(steps)), ingredientToJson(Some(ingredientText), old(ingredient.imagePaths)),
        if selectedCategoryId.Some? then selectedCategoryId else defaultCategoryId, editingFavorite)
      ensures saved.Some? ==> saved.value.categoryId == if selectedCategoryId.Some? then selectedCategoryId else defaultCategoryId
      ensures saved.Some? ==> (saved.value.id.Some? <==> editingId > 0)
      ensures saved.Some? ==> ingredient.text == Some(ingredientText)
      ensures editingId > 0 ==> levelUp.None? && profile.currentLevel == old(profile.currentLevel)
      ensures editingId <= 0 && saved.Some? ==> levelUp == LevelUpTarget(recipeCountAfterInsert, old(profile.currentLevel))
      ensures ingredient.imagePaths == old(ingredient.imagePaths)
    {
      var name := Trim(nameInput);
      if name == [] {
        return None, None;
      }
      ingredient.SetText(Some(ingredientText));
      var ingredientJson := ingredientToJson(ingredient.text, ingredient.imagePaths);
      var stepsJson := stepsToJson(StepsSnapshot(steps));
      var categoryId := if selectedCategoryId.Some? then selectedCategoryId else defaultCategoryId;
      var entity := BuildRecipeEntity(editingId, name, existingCreatedAt, now, coverPath,
                                      stepsJson, ingredientJson, categoryId, editingFavorite);
      saved := Some(entity);
      if editingId > 0 {
        levelUp := None;
      } else {
        levelUp := CheckLevelUpIfNeeded(recipeCountAfterInsert, profile);
      }
    }
  }
}
