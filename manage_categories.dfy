/** The administrator's category manager: add, rename and delete, each marking its button as
    loading while its request runs. */
module ManageCategories {
  import opened Wrappers
  import opened Text
  import opened Lists
  import opened Schema
  import opened CategoriesRoute

  /** The list with the categories of that id renamed; the rest is kept. */
  function Renamed(categories: seq<Category>, id: string, name: string): (r: seq<Category>)
    ensures |r| == |categories|
    ensures forall i :: 0 <= i < |categories| ==>
      r[i] == if categories[i].id == id then categories[i].(name := name) else categories[i]
  {
    seq(|categories|, i requires 0 <= i < |categories| =>
      if categories[i].id == id then categories[i].(name := name) else categories[i])
  }

  /** A rename keeps every id where it was and changes names only under the given id. */
  lemma RenameKeepsIds(categories: seq<Category>, id: string, name: string)
    ensures forall i :: 0 <= i < |categories| ==> Renamed(categories, id, name)[i].id == categories[i].id
    ensures forall i :: 0 <= i < |categories| && categories[i].id != id ==>
      Renamed(categories, id, name)[i].name == categories[i].name
    ensures UniqueBy(categories, CategoryId) ==> UniqueBy(Renamed(categories, id, name), CategoryId)
  {
    var r := Renamed(categories, id, name);
    assert forall i :: 0 <= i < |r| ==> CategoryId(r[i]) == CategoryId(categories[i]);
  }

  /** The list without the categories of that id, the others in their order. */
  function WithoutCategory(categories: seq<Category>, id: string): (r: seq<Category>)
    ensures IsSubsequence(r, categories)
    ensures forall c :: c in r <==> c in categories && c.id != id
  {
    Filter(categories, (c: Category) => c.id != id)
  }

  /** How the rename request (`PUT /api/categories/{id}`) ended: the name the server stored, or a
      failure. */
  datatype RenameOutcome = RenamedTo(name: string) | RenameFailed

  /** The manager's state. */
  class Manager {
    var categories: seq<Category>
    var isAddingNew: bool
    var editingId: Option<string>
    var newCategoryName: string
    var editingName: string
    var loadingStates: map<string, bool>
    var error: Option<string>

    constructor (initial: seq<Category>)
      ensures categories == initial && !isAddingNew && editingId == None
      ensures newCategoryName == "" && editingName == "" && loadingStates == map[] && error == None
    {
      categories := initial;
      isAddingNew := false;
      editingId := None;
      newCategoryName := "";
      editingName := "";
      loadingStates := map[];
      error := None;
    }

    /** `setLoading`: only the given key of `loadingStates` changes. */
    method SetLoading(key: string, loading: bool)
      modifies this
      ensures loadingStates == old(loadingStates)[key := loading]
      ensures forall k :: k in old(loadingStates) && k != key ==> k in loadingStates && loadingStates[k] == old(loadingStates)[k]
      ensures categories == old(categories) && editingId == old(editingId) && editingName == old(editingName)
      ensures newCategoryName == old(newCategoryName) && isAddingNew == old(isAddingNew) && error == old(error)
    {
      loadingStates := loadingStates[key := loading];
    }

    /** `handleAddCategory`. A name blank after trimming sends nothing and changes nothing.
        Otherwise the trimmed name is posted to the category route: when the route creates it the
        category the server returned is appended and the input is cleared; when the name is taken
        (409) the list is kept and the error is set. The "add" button ends not loading. */
    method HandleAddCategory(db: Database, newId: string)
      requires db.Valid()
      requires forall c :: c in db.categories ==> c.id != newId
      modifies this, db
      ensures db.Valid()
      ensures unchanged(db`users, db`posts, db`likes, db`resetTokens)
      ensures IsBlank(old(newCategoryName)) ==> unchanged(this) && unchanged(db)
      ensures !IsBlank(old(newCategoryName)) ==>
        var name := Trim(old(newCategoryName));
        && loadingStates == old(loadingStates)["add" := false]
        && editingId == old(editingId) && editingName == old(editingName)
        && (CategoryByName(old(db.categories), name).Some? ==>
              && categories == old(categories) && error == Some("Failed to create category")
              && newCategoryName == old(newCategoryName) && isAddingNew == old(isAddingNew)
              && db.categories == old(db.categories))
        && (CategoryByName(old(db.categories), name).None? ==>
              && categories == old(categories) + [Category(newId, name)] && error == None
              && newCategoryName == "" && !isAddingNew
              && db.categories == old(db.categories) + [Category(newId, name)])
    {
      if IsBlank(newCategoryName) {
        return;
      }
      loadingStates := loadingStates["add" := true];
      error := None;
      var reply := CreateCategoryRoute(db, Some(CategoryBody(Some(Trim(newCategoryName)))), newId);
      FinishAdd(if reply.Some? && reply.value.status == 201 && reply.value.body.CreatedCategory?
                then Some(reply.value.body.category) else None);
    }

    /** The end of `handleAddCategory`, once the request is over: the category the server created
        is appended and the input cleared, or the error is set; "add" stops loading. */
    method FinishAdd(created: Option<Category>)
      modifies this
      ensures loadingStates == old(loadingStates)["add" := false]
      ensures editingId == old(editingId) && editingName == old(editingName)
      ensures created.None? ==>
        && categories == old(categories) && error == Some("Failed to create category")
        && newCategoryName == old(newCategoryName) && isAddingNew == old(isAddingNew)
      ensures created.Some? ==>
        && categories == old(categories) + [created.value] && error == old(error)
        && newCategoryName == "" && !isAddingNew
    {
      if created.Some? {
        categories := categories + [created.value];
        newCategoryName := "";
        isAddingNew := false;
      } else {
        error := Some("Failed to create category");
      }
      loadingStates := loadingStates["add" := false];
    }

    /** `handleStartEdit`. */
    method StartEdit(c: Category)
      modifies this
      ensures editingId == Some(c.id) && editingName == c.name
      ensures categories == old(categories) && loadingStates == old(loadingStates) && error == old(error)
      ensures newCategoryName == old(newCategoryName) && isAddingNew == old(isAddingNew)
    {
      editingId := Some(c.id);
      editingName := c.name;
    }

    /** `handleCancelEdit`. */
    method CancelEdit()
      modifies this
      ensures editingId == None && editingName == ""
      ensures categories == old(categories) && loadingStates == old(loadingStates) && error == old(error)
      ensures newCategoryName == old(newCategoryName) && isAddingNew == old(isAddingNew)
    {
      editingId := None;
      editingName := "";
    }

    /** `handleSaveEdit`. A blank name or no category being edited (an absent or empty id) is a
        no-op. Otherwise the trimmed name is sent; on success only the category with the edited id
        takes the name the server returned, and editing ends; on failure the list is kept and the
        error is set. The "edit-" button of that id ends not loading. */
    method HandleSaveEdit(outcome: RenameOutcome)
      modifies this
      ensures IsBlank(old(editingName)) || !Truthy(old(editingId)) ==> unchanged(this)
      ensures !IsBlank(old(editingName)) && Truthy(old(editingId)) ==>
        var id := old(editingId).value;
        && loadingStates == old(loadingStates)["edit-" + id := false]
        && newCategoryName == old(newCategoryName) && isAddingNew == old(isAddingNew)
        && (outcome.RenamedTo? ==>
              && categories == Renamed(old(categories), id, outcome.name)
              && editingId == None && editingName == "" && error == None)
        && (outcome.RenameFailed? ==>
              && categories == old(categories) && error == Some("Failed to update category")
              && editingId == old(editingId) && editingName == old(editingName))
    {
      if IsBlank(editingName) || !Truthy(editingId) {
        return;
      }
      var id := editingId.value;
      loadingStates := loadingStates["edit-" + id := true];
      error := None;
      if outcome.RenamedTo? {
        categories := Renamed(categories, id, outcome.name);
        editingId := None;
        editingName := "";
      } else {
        error := Some("Failed to update category");
      }
      loadingStates := loadingStates["edit-" + id := false];
    }

    /** `handleDeleteCategory`. A declined confirmation is a no-op. Otherwise, when the delete
        request (`DELETE /api/categories/{id}`) succeeds the category leaves the list; when it fails
        the list is kept and the error is set. The "delete-" button of that id ends not loading.
        `confirmed` is the user's answer and `deleted` whether the request succeeded. */
    method HandleDeleteCategory(id: string, confirmed: bool, deleted: bool)
      modifies this
      ensures !confirmed ==> unchanged(this)
      ensures confirmed ==>
        && loadingStates == old(loadingStates)["delete-" + id := false]
        && editingId == old(editingId) && editingName == old(editingName)
        && newCategoryName == old(newCategoryName) && isAddingNew == old(isAddingNew)
        && (deleted ==> categories == WithoutCategory(old(categories), id) && error == None)
        && (!deleted ==> categories == old(categories) && error == Some("Failed to delete category"))
    {
      if !confirmed {
        return;
      }
      loadingStates := loadingStates["delete-" + id := true];
      error := None;
      if deleted {
        categories := WithoutCategory(categories, id);
      } else {
        error := Some("Failed to delete category");
      }
      loadingStates := loadingStates["delete-" + id := false];
    }
  }
}
