/**
  The category list of the `useCategories` hook (`hooks/useCategories.ts`).
  As for tasks, only the local branch of each operation is modelled.
*/
module CategoryHook {
  import opened Common
  import opened Seqs
  import opened Records

  /** `cat => cat.id === id` */
  function IsCategory(id: string): Category -> bool {
    (c: Category) => c.id == id
  }

  /** `cat => cat.id !== id` */
  function OtherCategory(id: string): Category -> bool {
    (c: Category) => c.id != id
  }

  /** Some category carries the id. */
  predicate HasCategory(cs: seq<Category>, id: string) {
    exists i :: 0 <= i < |cs| && cs[i].id == id
  }

  /**
    `DEFAULT_CATEGORIES`: the single "Uncategorized" category with id
    `'default'`, stamped with the time the module was loaded.
  */
  function DefaultCategories(loadedAt: string): (cs: seq<Category>)
    ensures |cs| == 1 && HasCategory(cs, DefaultCategoryId)
    ensures cs[0] == Category("default", "Uncategorized", "hsl(var(--muted))", loadedAt)
  {
    var cs := [Category(DefaultCategoryId, "Uncategorized", "hsl(var(--muted))", loadedAt)];
    assert cs[0].id == DefaultCategoryId;
    cs
  }

  /**
    A list read from the server or from storage, with an empty one replaced by
    the defaults: the result is never empty, and it is what was read whenever
    that was not empty.
  */
  function OrDefaults(loaded: seq<Category>, loadedAt: string): (cs: seq<Category>)
    ensures cs != []
    ensures loaded != [] ==> cs == loaded
    ensures loaded == [] ==> cs == DefaultCategories(loadedAt)
  {
    if |loaded| > 0 then loaded else DefaultCategories(loadedAt)
  }

  /**
    The list after `deleteCategory(id)`: the `'default'` category is never
    deleted; any other id takes every category with that id out and keeps the
    rest in order.
  */
  function Deleted(cs: seq<Category>, id: string): seq<Category> {
    if id == DefaultCategoryId then cs else Filter(cs, OtherCategory(id))
  }

  /**
    Deleting `'default'` changes nothing, no deletion ever loses the default
    category, and a deleted id (other than `'default'`) is gone from the list
    while every other category stays.
  */
  lemma DeletedKeepsDefault(cs: seq<Category>, id: string)
    ensures id == DefaultCategoryId ==> Deleted(cs, id) == cs
    ensures HasCategory(cs, DefaultCategoryId) ==> HasCategory(Deleted(cs, id), DefaultCategoryId)
    ensures id != DefaultCategoryId ==> !HasCategory(Deleted(cs, id), id)
    ensures forall i :: 0 <= i < |cs| && cs[i].id != id ==> cs[i] in Deleted(cs, id)
  {
    if id != DefaultCategoryId && HasCategory(cs, DefaultCategoryId) {
      var k :| 0 <= k < |cs| && cs[k].id == DefaultCategoryId;
      assert OtherCategory(id)(cs[k]);
      var r := Deleted(cs, id);
      var j :| 0 <= j < |r| && r[j] == cs[k];
    }
  }

  /** The list after `updateCategory(id, u)`. */
  function UpdatedCategories(cs: seq<Category>, id: string, u: CategoryPatch): seq<Category> {
    UpdateWhere(cs, IsCategory(id), c => MergeCategory(c, u))
  }

  /**
    Updating an unknown id changes nothing; otherwise every category with that
    id is replaced by the patch spread over the first of them, and every other
    category stays where it was.
  */
  lemma UpdateCategoryFrame(cs: seq<Category>, id: string, u: CategoryPatch)
    ensures !HasCategory(cs, id) ==> UpdatedCategories(cs, id, u) == cs
    ensures |UpdatedCategories(cs, id, u)| == |cs|
    ensures forall i :: 0 <= i < |cs| && cs[i].id != id ==> UpdatedCategories(cs, id, u)[i] == cs[i]
    ensures forall i :: FirstMatch(cs, IsCategory(id), i) ==>
      UpdatedCategories(cs, id, u)[i] == MergeCategory(cs[i], u)
  {
  }

  /** The hook's state. */
  class CategoryStore {
    /** When the module was loaded, which stamps `DEFAULT_CATEGORIES`. */
    const loadedAt: string
    var categories: seq<Category>

    /** The initial state is the default list. */
    constructor (loadedAt: string)
      ensures this.loadedAt == loadedAt && categories == DefaultCategories(loadedAt)
    {
      this.loadedAt := loadedAt;
      categories := DefaultCategories(loadedAt);
    }

    /** The load effect, from the server or from storage: an empty list becomes the defaults. */
    method Load(loaded: seq<Category>)
      modifies this
      ensures categories == OrDefaults(loaded, loadedAt)
    {
      categories := if |loaded| > 0 then loaded else DefaultCategories(loadedAt);
    }

    /** `addCategory`: the new category goes last and is returned. */
    method AddCategory(id: string, name: string, color: string, createdAt: string) returns (created: Category)
      modifies this
      ensures created == Category(id, name, color, createdAt)
      ensures categories == old(categories) + [created]
    {
      created := Category(id, name, color, createdAt);
      categories := categories + [created];
    }

    /** `deleteCategory`: refused for `'default'`, a filter otherwise. */
    method DeleteCategory(id: string)
      modifies this
      ensures categories == Deleted(old(categories), id)
    {
      if id == DefaultCategoryId {
        return;
      }
      categories := Filter(categories, OtherCategory(id));
    }

    /** `updateCategory`: spread the patch over the category with that id. */
    method UpdateCategory(id: string, updates: CategoryPatch)
      modifies this
      ensures categories == UpdatedCategories(old(categories), id, updates)
    {
      var c := FindFirst(categories, IsCategory(id));
      if c.None? {
        return;
      }
      var merged := MergeCategory(c.value, updates);
      categories := Replace(categories, IsCategory(id), merged);
    }
  }
}
