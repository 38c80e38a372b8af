/** The category-creation route: `POST /api/categories`. */
module CategoriesRoute {
  import opened Wrappers
  import opened Lists
  import opened Schema

  /** The JSON body of the request. */
  datatype CategoryBody = CategoryBody(name: Option<string>)

  /** The body of a reply: the created category with a message, or a message alone. */
  datatype CategoryReplyBody = CreatedCategory(category: Category, message: string) | MessageOnly(message: string)

  datatype CategoryReply = CategoryReply(status: int, body: CategoryReplyBody)

  /** `POST /api/categories`. The name is used as given, with no trimming and no emptiness check.
      A name some category already has is a 409 and nothing is created; a new name appends exactly
      one category and the 201 reply carries it. A body that is not JSON, or one without a name
      (the lookup then throws), is swallowed by the handler, which returns no reply at all (`None`).
      Category names stay unique whatever sequence of requests runs. */
  method CreateCategoryRoute(db: Database, request: Option<CategoryBody>, newId: string)
    returns (r: Option<CategoryReply>)
    requires db.Valid()
    requires forall c :: c in db.categories ==> c.id != newId
    modifies db
    ensures db.Valid()
    ensures unchanged(db`users, db`posts, db`likes, db`resetTokens)
    ensures request.None? || request.value.name.None? ==> r.None? && unchanged(db)
    ensures request.Some? && request.value.name.Some? ==>
      var name := request.value.name.value;
      if CategoryByName(old(db.categories), name).Some? then
        r == Some(CategoryReply(409, MessageOnly("Category already exists"))) && unchanged(db)
      else
        && db.categories == old(db.categories) + [Category(newId, name)]
        && r == Some(CategoryReply(201, CreatedCategory(Category(newId, name), "Category created successfully")))
  {
    if request.None? || request.value.name.None? {
      return None;
    }
    var name := request.value.name.value;
    if CategoryByName(db.categories, name).Some? {
      return Some(CategoryReply(409, MessageOnly("Category already exists")));
    }
    var category := Category(newId, name);
    AppendUnique(db.categories, category, CategoryId);
    AppendUnique(db.categories, category, CategoryName);
    db.categories := db.categories + [category];
    r := Some(CategoryReply(201, CreatedCategory(category, "Category created successfully")));
  }

  /** After a creation the new category is the one found under its name. */
  lemma CreatedCategoryIsFound(categories: seq<Category>, c: Category)
    requires CategoryByName(categories, c.name).None?
    ensures CategoryByName(categories + [c], c.name) == Some(c)
  {
    FindAppend(categories, c, (x: Category) => x.name == c.name);
  }
}
