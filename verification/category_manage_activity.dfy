/** The category management screen: loading, renumbering and saving, and the guarded
    add / rename / delete edits on the adapter's list. */
module CategoryManageActivity {
  import opened Wrappers
  import opened JavaText
  import opened CategoryEntities
  import opened CategoryManageAdapter

  /** The ids of a list of nullable ids, nulls skipped, order kept. */
  function NonNullIds(ids: seq<Option<int>>): (r: seq<int>)
    ensures |r| <= |ids|
  {
    if ids == [] then []
    else
      var init := ids[..|ids| - 1];
      NonNullIds(init) + (if ids[|ids| - 1].Some? then [ids[|ids| - 1].value] else [])
  }

  /** The non-null ids are exactly the ids present in the list. */
  lemma {:induction false} NonNullIdsMembers(ids: seq<Option<int>>)
    ensures forall x :: x in NonNullIds(ids) <==> Some(x) in ids
    decreases |ids|
  {
    if ids != [] {
      var init := ids[..|ids| - 1];
      NonNullIdsMembers(init);
      assert ids == init + [ids[|ids| - 1]];
    }
  }

  /** The entries of `original` that `current` no longer holds, in `original`'s order. */
  function IdsToDelete(original: seq<int>, current: seq<int>): (r: seq<int>)
    ensures forall x :: x in r <==> x in original && x !in current
    ensures |r| <= |original|
  {
    if original == [] then []
    else
      var init := original[..|original| - 1];
      var last := original[|original| - 1];
      assert original == init + [last];
      IdsToDelete(init, current) + (if last in current then [] else [last])
  }

  function IdsOf(list: seq<CategoryEntity>): (r: seq<Option<int>>)
    reads list
    ensures |r| == |list| && forall i :: 0 <= i < |list| ==> r[i] == list[i].id
  {
    seq(|list|, i requires 0 <= i < |list| reads list => list[i].id)
  }

  /** A category row as `insertAll` writes it. */
  datatype CategoryRow = CategoryRow(id: Option<int>, name: string, sortOrder: int)

  function RowsOf(list: seq<CategoryEntity>): (r: seq<CategoryRow>)
    reads list
    ensures |r| == |list|
    ensures forall i :: 0 <= i < |list| ==> r[i] == CategoryRow(list[i].id, list[i].name, list[i].sortOrder)
  {
    seq(|list|, i requires 0 <= i < |list| reads list => CategoryRow(list[i].id, list[i].name, list[i].sortOrder))
  }

  /** The database calls a save makes: `deleteByIds` (skipped when there is nothing to delete)
      and `insertAll` with the renumbered rows. */
  datatype SaveOutcome =
    | NothingToSave
    | Saved(deleteByIds: Option<seq<int>>, insertAll: seq<CategoryRow>)

  class CategoryManageScreen {
    var adapter: Adapter
    var originalIds: seq<int>

    constructor ()
      ensures fresh(adapter) && adapter.data == [] && originalIds == []
    {
      adapter := new Adapter();
      originalIds := [];
    }

    /** `loadCategories`: remembers the non-null ids that were loaded and shows the list
        (an absent list counts as empty). */
    method LoadCategories(list: Option<seq<CategoryEntity>>)
      requires list.Some? ==> Distinct(list.value)
      modifies this`originalIds, adapter
      ensures var l := if list.None? then [] else list.value;
        originalIds == NonNullIds(IdsOf(l)) && adapter.data == l
      ensures adapter.Valid()
    {
      var l := if list.None? then [] else list.value;
      ghost var ids := IdsOf(l);
      var loaded: seq<int> := [];
      var i := 0;
      while i < |l|
        invariant 0 <= i <= |l|
        invariant loaded == NonNullIds(ids[..i])
      {
        assert ids[..i + 1][..i] == ids[..i];
        if l[i].id.Some? {
          loaded := loaded + [l[i].id.value];
        }
        i := i + 1;
      }
      assert ids[..|l|] == ids;
      originalIds := loaded;
      adapter.SetData(Some(l));
    }

    /** `saveCategories`: an empty list saves nothing; otherwise every category's sort order
        becomes its 1-based position, the loaded ids that are gone are deleted (only when there
        are some) and the list is written back. */
    method SaveCategories() returns (outcome: SaveOutcome)
      requires adapter.Valid()
      modifies adapter.data
      ensures |adapter.data| == 0 <==> outcome == NothingToSave
      ensures forall k :: 0 <= k < |adapter.data| ==> adapter.data[k].sortOrder == k + 1
      ensures forall k :: 0 <= k < |adapter.data| ==>
        adapter.data[k].id == old(adapter.data[k].id) && adapter.data[k].name == old(adapter.data[k].name)
      ensures outcome.Saved? ==> outcome.insertAll == RowsOf(adapter.data)
      ensures outcome.Saved? ==>
        var d := IdsToDelete(originalIds, NonNullIds(IdsOf(adapter.data)));
        outcome.deleteByIds == if d == [] then None else Some(d)
    {
      var list := adapter.data;
      if |list| == 0 {
        return NothingToSave;
      }
      var currentIds := Renumber(list);
      var toDelete := CollectIdsToDelete(originalIds, currentIds);
      var deleted := if |toDelete| > 0 then Some(toDelete) else None;
      outcome := Saved(deleted, RowsOf(list));
    }

    /** `onEdit`: the trimmed name must be non-empty; only an in-range row is renamed. */
    method OnEdit(position: int, input: string) returns (accepted: bool)
      requires adapter.Valid()
      modifies adapter.data
      ensures accepted <==> Trim(input) != []
      ensures accepted && 0 <= position < |adapter.data| ==> adapter.data[position].name == Trim(input)
      ensures forall k :: 0 <= k < |adapter.data| && (k != position || !accepted) ==>
        adapter.data[k].name == old(adapter.data[k].name)
      ensures forall k :: 0 <= k < |adapter.data| ==>
        adapter.data[k].id == old(adapter.data[k].id) && adapter.data[k].sortOrder == old(adapter.data[k].sortOrder)
    {
      var newName := Trim(input);
      if newName == [] {
        return false;
      }
      if position >= 0 && position < |adapter.data| {
        adapter.data[position].name := newName;
      }
      return true;
    }

    /** `onDelete`: an out-of-range position is ignored, an unsaved category is removed at
        once, and a saved one only when no recipe uses it (`recipeCount` is the DAO's count). */
    method OnDelete(category: CategoryEntity, position: int, recipeCount: int) returns (blocked: bool)
      modifies adapter
      ensures !(0 <= position < |old(adapter.data)|) ==> !blocked && adapter.data == old(adapter.data)
      ensures blocked <==> 0 <= position < |old(adapter.data)| && category.id.Some? && recipeCount > 0
      ensures 0 <= position < |old(adapter.data)| && !blocked ==>
        adapter.data == old(adapter.data)[..position] + old(adapter.data)[position + 1..]
      ensures blocked ==> adapter.data == old(adapter.data)
      ensures old(adapter.Valid()) ==> adapter.Valid()
    {
      var list := adapter.data;
      if position < 0 || position >= |list| {
        return false;
      }
      var categoryId := category.id;
      if categoryId.None? {
        adapter.data := list[..position] + list[position + 1..];
        return false;
      }
      if recipeCount > 0 {
        return true;
      }
      adapter.data := list[..position] + list[position + 1..];
      return false;
    }

    /** `onAddNew`: a non-empty trimmed name appends an unsaved category placed last. */
    method OnAddNew(input: string) returns (added: Option<CategoryEntity>)
      modifies adapter
      ensures added.None? <==> Trim(input) == []
      ensures added.None? ==> adapter.data == old(adapter.data)
      ensures added.Some? ==> fresh(added.value) && adapter.data == old(adapter.data) + [added.value]
      ensures added.Some? ==>
        added.value.id.None? && added.value.name == Trim(input) && added.value.sortOrder == |old(adapter.data)| + 1
      ensures old(adapter.Valid()) ==> adapter.Valid()
    {
      var newName := Trim(input);
      if newName == [] {
        return None;
      }
      ghost var before := adapter.data;
      var entity := new CategoryEntity(None, newName, |adapter.data| + 1);
      assert forall i :: 0 <= i < |before| ==> before[i] != entity;
      adapter.data := adapter.data + [entity];
      assert forall i :: 0 <= i < |before| ==> adapter.data[i] == before[i];
      return Some(entity);
    }
  }

  /** The renumbering pass of `saveCategories`: sort order i+1 at position i, collecting the
      non-null ids on the way. */
  method Renumber(list: seq<CategoryEntity>) returns (currentIds: seq<int>)
    requires Distinct(list)
    modifies list
    ensures forall k :: 0 <= k < |list| ==> list[k].sortOrder == k + 1
    ensures forall k :: 0 <= k < |list| ==> list[k].id == old(list[k].id) && list[k].name == old(list[k].name)
    ensures currentIds == NonNullIds(IdsOf(list))
  {
    ghost var ids := IdsOf(list);
    currentIds := [];
    var i := 0;
    while i < |list|
      invariant 0 <= i <= |list|
      invariant forall k :: 0 <= k < i ==> list[k].sortOrder == k + 1
      invariant forall k :: 0 <= k < |list| ==> list[k].id == ids[k] && list[k].name == old(list[k].name)
      invariant currentIds == NonNullIds(ids[..i])
    {
      NonNullIdsStep(ids, i);
      var c := list[i];
      assert c.id == ids[i];
      assert forall k :: 0 <= k < i ==> list[k] != c;
      SetSortOrder(c, i + 1);
      if c.id.Some? {
        currentIds := currentIds + [c.id.value];
      }
      i := i + 1;
    }
    assert ids[..|list|] == ids;
    IdsUnchanged(list, ids);
  }

  /** `setSortOrder` on one entity. */
  method SetSortOrder(c: CategoryEntity, sortOrder: int)
    modifies c
    ensures c.sortOrder == sortOrder && c.id == old(c.id) && c.name == old(c.name)
  {
    c.sortOrder := sortOrder;
  }

  lemma NonNullIdsStep(ids: seq<Option<int>>, i: int)
    requires 0 <= i < |ids|
    ensures NonNullIds(ids[..i + 1]) == NonNullIds(ids[..i]) + if ids[i].Some? then [ids[i].value] else []
  {
    assert ids[..i + 1][..i] == ids[..i];
  }

  lemma IdsUnchanged(list: seq<CategoryEntity>, ids: seq<Option<int>>)
    requires |ids| == |list| && forall k :: 0 <= k < |list| ==> list[k].id == ids[k]
    ensures IdsOf(list) == ids
  {
  }

  /** The delete-set pass of `saveCategories`. */
  method CollectIdsToDelete(originalIds: seq<int>, currentIds: seq<int>) returns (toDelete: seq<int>)
    ensures toDelete == IdsToDelete(originalIds, currentIds)
  {
    toDelete := [];
    var j := 0;
    while j < |originalIds|
      invariant 0 <= j <= |originalIds|
      invariant toDelete == IdsToDelete(originalIds[..j], currentIds)
    {
      assert originalIds[..j + 1][..j] == originalIds[..j];
      if originalIds[j] !in currentIds {
        toDelete := toDelete + [originalIds[j]];
      }
      j := j + 1;
    }
    assert originalIds[..|originalIds|] == originalIds;
  }

  /** No category that is still in the saved list is deleted, and every loaded id that is gone
      is. */
  lemma DeleteSetIsExact(original: seq<int>, ids: seq<Option<int>>, x: int)
    ensures x in IdsToDelete(original, NonNullIds(ids)) <==> x in original && Some(x) !in ids
  {
    NonNullIdsMembers(ids);
  }
}
