/** The `categories` row object that the category screens edit in place. */
module CategoryEntities {
  import opened Wrappers

  class CategoryEntity {
    var id: Option<int>
    var name: string
    var sortOrder: int

    constructor (id: Option<int>, name: string, sortOrder: int)
      ensures this.id == id && this.name == name && this.sortOrder == sortOrder
    {
      this.id := id;
      this.name := name;
      this.sortOrder := sortOrder;
    }
  }

  /** No category object appears twice in a list. */
  predicate Distinct(s: seq<CategoryEntity>) {
    forall i, j :: 0 <= i < j < |s| ==> s[i] != s[j]
  }
}
