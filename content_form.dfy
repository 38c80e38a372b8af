/** The writing page's form: title, a list of distinct categories typed one at a time, and the
    content, validated before the post is submitted. */
module ContentForm {
  import opened Wrappers
  import opened Text
  import opened Lists
  import opened Schema
  import opened Zod
  import opened EditorAction

  /** The issues of `BlogFormSchema` on the values the form passes it (the title already trimmed):
      a title of 1 to 100 characters, 1 to 5 categories and non-empty content. */
  function BlogFormIssues(title: string, categories: seq<string>, content: string): seq<Issue> {
    Check("title", |title| >= 1, "Title is required")
    + Check("title", |title| <= 100, "Title must be at most 100 characters long")
    + Check("categories", |categories| >= 1, "At least one category is required")
    + Check("categories", |categories| <= 5, "Maximum 5 categories allowed")
    + Check("content", |content| >= 1, "Content is required")
  }

  /** What `validateFormData` accepts: the trimmed title has 1 to 100 characters, there are 1 to 5
      categories and the content is not empty. */
  predicate FormAccepted(title: string, categories: seq<string>, content: string) {
    1 <= |Trim(title)| <= 100 && 1 <= |categories| <= 5 && content != ""
  }

  /** `validateFormData` returns true exactly when the schema finds no issue in the form's values,
      the title passed trimmed. */
  lemma BlogFormAccepts(title: string, categories: seq<string>, content: string)
    ensures BlogFormIssues(Trim(title), categories, content) == [] <==> FormAccepted(title, categories, content)
  {
    var t := Trim(title);
    assert BlogFormIssues(t, categories, content) == [] <==> 1 <= |t| <= 100 && 1 <= |categories| <= 5 && content != "";
  }

  /** The category list after `addCategory`: the trimmed entry appended when it is non-empty and
      not yet listed. */
  function WithCategory(categories: seq<string>, entry: string): (r: seq<string>)
    ensures NoDuplicates(categories) ==> NoDuplicates(r)
    ensures forall c :: c in r <==> c in categories || (c == Trim(entry) && Trim(entry) != "")
    ensures |r| <= |categories| + 1
  {
    var t := Trim(entry);
    if t != "" && t !in categories then categories + [t] else categories
  }

  /** The category list after `removeCategory`: without the entries equal to the trimmed input. */
  function WithoutCategory(categories: seq<string>, entry: string): (r: seq<string>)
    ensures IsSubsequence(r, categories)
    ensures forall c :: c in r <==> c in categories && c != Trim(entry)
  {
    Filter(categories, (c: string) => c != Trim(entry))
  }

  /** Adding a category and removing it with the same input gives back the list. */
  lemma AddThenRemove(categories: seq<string>, entry: string)
    requires Trim(entry) !in categories
    ensures WithoutCategory(WithCategory(categories, entry), entry) == categories
  {
    var t := Trim(entry);
    if t != "" {
      FilterAppend(categories, t, (c: string) => c != t);
    }
    FilterKeepsAll(categories, (c: string) => c != t);
  }

  datatype Notice = ErrorNotice(message: string) | SuccessNotice(message: string)

  const TitleMessage := "Title is Required and must be atmost 100 characters long"
  const CategoryMessage := "Atleast 1 and Atmost 5 categories allowed"
  const ContentMessage := "Content Required"
  const SubmittedMessage := "Blog Submitted Successfully"

  /** The form's state. */
  class Form {
    var title: string
    var categories: seq<string>
    var input: string
    var content: string
    var pending: bool
    var titleError: string
    var categoryError: string
    var contentError: string
    var notices: seq<Notice>

    constructor ()
      ensures title == "" && categories == [] && input == "" && content == "" && !pending
      ensures titleError == "" && categoryError == "" && contentError == "" && notices == []
    {
      title, categories, input, content, pending := "", [], "", "", false;
      titleError, categoryError, contentError, notices := "", "", "", [];
    }

    /** `addCategory`: the trimmed input is appended when non-empty and new, and the input is then
        cleared; otherwise nothing changes. The list stays free of duplicates. */
    method AddCategory()
      modifies this
      ensures var t := Trim(old(input));
        if t != "" && t !in old(categories) then categories == old(categories) + [t] && input == ""
        else categories == old(categories) && input == old(input)
      ensures categories == WithCategory(old(categories), old(input))
      ensures NoDuplicates(old(categories)) ==> NoDuplicates(categories)
      ensures title == old(title) && content == old(content) && notices == old(notices)
      ensures pending == old(pending)
      ensures titleError == old(titleError) && categoryError == old(categoryError) && contentError == old(contentError)
    {
      var t := Trim(input);
      if t != "" && t !in categories {
        categories := categories + [t];
        input := "";
      }
    }

    /** `removeCategory`: drops the entries equal to the trimmed input and clears the input. */
    method RemoveCategory()
      modifies this
      ensures categories == WithoutCategory(old(categories), old(input)) && input == ""
      ensures title == old(title) && content == old(content) && notices == old(notices)
      ensures pending == old(pending)
      ensures titleError == old(titleError) && categoryError == old(categoryError) && contentError == old(contentError)
    {
      categories := WithoutCategory(categories, input);
      input := "";
    }

    /** `handleSubmit`. `accepted` is what `validateFormData` returned. When the schema rejects the form all three error texts are set and nothing is
        sent. Otherwise the error texts are cleared and the post (with the title as typed) is sent
        to `createBlogAction`; an `{ error }` result raises an error notice, and the success notice
        is raised in every case. */
    method HandleSubmit(db: Database, username: string, newId: string, now: int) returns (accepted: bool)
      requires db.Valid()
      requires PostById(db.posts, newId).None?
      modifies this, db
      ensures db.Valid()
      ensures unchanged(db`users, db`likes, db`categories, db`resetTokens)
      ensures title == old(title) && categories == old(categories) && content == old(content)
      ensures input == old(input)
      ensures accepted <==> FormAccepted(old(title), old(categories), old(content))
      ensures !accepted ==>
        && titleError == TitleMessage && categoryError == CategoryMessage && contentError == ContentMessage
        && notices == old(notices) && pending == old(pending) && unchanged(db)
      ensures accepted ==>
        var author := UserByName(old(db.users), username);
        var sent := BlogData(old(title), old(categories), old(content), username);
        && titleError == "" && categoryError == "" && contentError == "" && !pending
        && (author.None? || author.value.id == "" ==>
              db.posts == old(db.posts)
              && notices == old(notices) + [ErrorNotice("NO User Id"), SuccessNotice(SubmittedMessage)])
        && (author.Some? && author.value.id != "" ==>
              db.posts == old(db.posts) + [NewPost(newId, sent, author.value.id, now)]
              && notices == old(notices) + [SuccessNotice(SubmittedMessage)])
    {
      accepted := FormAccepted(title, categories, content);
      if !accepted {
        titleError, categoryError, contentError := TitleMessage, CategoryMessage, ContentMessage;
        return;
      }
      titleError, categoryError, contentError := "", "", "";
      pending := true;
      var result := CreateBlogAction(db, BlogData(title, categories, content, username), newId, now);
      FinishSubmit(result);
    }

    /** The end of `handleSubmit`, once the action has answered: an `{ error }` result raises an
        error notice, the success notice follows in every case, and the form stops pending. */
    method FinishSubmit(result: CreateResult)
      modifies this
      ensures result.Failure? ==> notices == old(notices) + [ErrorNotice(result.error), SuccessNotice(SubmittedMessage)]
      ensures result.Redirect? ==> notices == old(notices) + [SuccessNotice(SubmittedMessage)]
      ensures !pending
      ensures title == old(title) && categories == old(categories) && content == old(content)
      ensures input == old(input)
      ensures titleError == old(titleError) && categoryError == old(categoryError) && contentError == old(contentError)
    {
      if result.Failure? {
        notices := notices + [ErrorNotice(result.error)];
      }
      notices := notices + [SuccessNotice(SubmittedMessage)];
      pending := false;
    }
  }
}
