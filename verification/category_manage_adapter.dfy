/** The drag-to-reorder list of categories, followed by one extra "add" row. */
module CategoryManageAdapter {
  import opened Wrappers
  import opened CategoryEntities

  const TYPE_ITEM: int := 0
  const TYPE_ADD: int := 1

  /** `Collections.swap` on a value sequence. */
  function Swap<T>(s: seq<T>, i: int, j: int): (r: seq<T>)
    requires 0 <= i < |s| && 0 <= j < |s|
    ensures |r| == |s| && r[i] == s[j] && r[j] == s[i]
    ensures forall k :: 0 <= k < |s| && k != i && k != j ==> r[k] == s[k]
  {
    s[i := s[j]][j := s[i]]
  }

  /** A swap only reorders: the multiset of elements is kept. */
  lemma SwapIsPermutation<T>(s: seq<T>, i: int, j: int)
    requires 0 <= i < |s| && 0 <= j < |s|
    ensures multiset(Swap(s, i, j)) == multiset(s)
  {
    var t := s[i := s[j]];
    assert multiset(t) == multiset(s) - multiset{s[i]} + multiset{s[j]};
    assert multiset(t[j := s[i]]) == multiset(t) - multiset{t[j]} + multiset{s[i]};
  }

  /** Swapping the same pair twice restores the list, so a drag can always be undone. */
  lemma SwapInvolution<T>(s: seq<T>, i: int, j: int)
    requires 0 <= i < |s| && 0 <= j < |s|
    ensures Swap(Swap(s, i, j), i, j) == s
  {
  }

  lemma SwapKeepsDistinct(s: seq<CategoryEntity>, i: int, j: int)
    requires 0 <= i < |s| && 0 <= j < |s| && Distinct(s)
    ensures Distinct(Swap(s, i, j))
  {
    var r := Swap(s, i, j);
    forall a, b | 0 <= a < b < |r|
      ensures r[a] != r[b]
    {
      var a' := if a == i then j else if a == j then i else a;
      var b' := if b == i then j else if b == j then i else b;
      assert r[a] == s[a'] && r[b] == s[b'] && a' != b';
    }
  }

  class Adapter {
    var data: seq<CategoryEntity>

    constructor ()
      ensures data == []
    {
      data := [];
    }

    predicate Valid()
      reads this
    {
      Distinct(data)
    }

    /** `setData`: the list becomes a copy of `list`, or empty for null. The rows a query
        returns are distinct objects, which is what `Valid` asks of the list. */
    method SetData(list: Option<seq<CategoryEntity>>)
      requires list.Some? ==> Distinct(list.value)
      modifies this
      ensures data == if list.None? then [] else list.value
      ensures Valid()
    {
      data := [];
      if list.Some? {
        data := data + list.value;
      }
    }

    /** `getItemCount`: the categories plus the add row. */
    function GetItemCount(): (n: int)
      reads this
      ensures n == |data| + 1
    {
      |data| + 1
    }

    /** `getItemViewType`: only position `|data|` is the add row. */
    function GetItemViewType(position: int): (t: int)
      reads this
      ensures t == TYPE_ADD <==> position == |data|
      ensures t == TYPE_ITEM || t == TYPE_ADD
    {
      if position == |data| then TYPE_ADD else TYPE_ITEM
    }

    /** `onItemMove`: swaps two category rows; a negative position, the add row or a move onto
        itself leaves the list as it is. */
    method OnItemMove(fromPosition: int, toPosition: int)
      modifies this
      ensures 0 <= fromPosition < |old(data)| && 0 <= toPosition < |old(data)| && fromPosition != toPosition ==>
        data == Swap(old(data), fromPosition, toPosition)
      ensures !(0 <= fromPosition < |old(data)| && 0 <= toPosition < |old(data)| && fromPosition != toPosition) ==>
        data == old(data)
      ensures multiset(data) == multiset(old(data))
      ensures old(Valid()) ==> Valid()
    {
      if fromPosition < 0 || toPosition < 0 {
        return;
      }
      if fromPosition >= |data| || toPosition >= |data| {
        return;
      }
      if fromPosition == toPosition {
        return;
      }
      SwapIsPermutation(data, fromPosition, toPosition);
      if Valid() {
        SwapKeepsDistinct(data, fromPosition, toPosition);
      }
      data := Swap(data, fromPosition, toPosition);
    }
  }

  /** Of the `GetItemCount()` rows, exactly the last one is the add row. */
  lemma AddRowIsLast(a: Adapter, position: int)
    requires 0 <= position < a.GetItemCount()
    ensures a.GetItemViewType(position) == TYPE_ITEM <==> position < |a.data|
    ensures a.GetItemViewType(position) == TYPE_ADD <==> position == a.GetItemCount() - 1
  {
  }
}
