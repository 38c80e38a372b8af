/** The editing page's form: title, category, summary, a list of distinct lower-case tags, the
    content and a feature image, validated before the edit is sent. */
module EditContentForm {
  import opened Wrappers
  import opened Text
  import opened Lists
  import opened Zod

  // ---------------------------------------------------------------------------------------------
  // The schema and the error record

  /** The issues of the title (passed trimmed): 1 to 100 characters. */
  function TitleIssues(title: string): (r: seq<Issue>)
    ensures |r| <= 1 && forall x :: x in r ==> x.path == "title"
    ensures r == [] <==> 1 <= |title| <= 100
  {
    Check("title", |title| >= 1, "Title is required")
    + Check("title", |title| <= 100, "Title must be at most 100 characters long")
  }

  /** The issues of the category: one must be chosen. */
  function CategoryIssues(category: string): (r: seq<Issue>)
    ensures |r| <= 1 && forall x :: x in r ==> x.path == "category"
    ensures r == [] <==> category != ""
  {
    Check("category", |category| >= 1, "Category is required")
  }

  /** The issues of the summary (passed trimmed): 10 to 300 characters. */
  function SummaryIssues(summary: string): (r: seq<Issue>)
    ensures |r| <= 1 && forall x :: x in r ==> x.path == "summary"
    ensures r == [] <==> 10 <= |summary| <= 300
  {
    Check("summary", |summary| >= 10, "Summary must be at least 10 characters")
    + Check("summary", |summary| <= 300, "Summary must be at most 300 characters")
  }

  /** The issues of the tag list: 1 to 10 tags. */
  function TagsIssues(tags: seq<string>): (r: seq<Issue>)
    ensures |r| <= 1 && forall x :: x in r ==> x.path == "tags"
    ensures r == [] <==> 1 <= |tags| <= 10
  {
    Check("tags", |tags| >= 1, "At least one tag is required")
    + Check("tags", |tags| <= 10, "Maximum 10 tags allowed")
  }

  /** The issues of the content: it must not be empty. */
  function ContentIssues(content: string): (r: seq<Issue>)
    ensures |r| <= 1 && forall x :: x in r ==> x.path == "content"
    ensures r == [] <==> content != ""
  {
    Check("content", |content| >= 1, "Content is required")
  }

  /** The issues of `BlogFormSchema` on the values the form passes it, field by field in the
      schema's order. */
  function BlogFormIssues(title: string, category: string, summary: string, tags: seq<string>, content: string): seq<Issue> {
    TitleIssues(title) + CategoryIssues(category) + SummaryIssues(summary) + TagsIssues(tags)
    + ContentIssues(content)
  }

  /** What `validateFormData` accepts. */
  predicate FormAccepted(title: string, category: string, summary: string, tags: seq<string>, content: string) {
    1 <= |Trim(title)| <= 100 && category != "" && 10 <= |Trim(summary)| <= 300
    && 1 <= |tags| <= 10 && content != ""
  }

  /** The schema finds no issue exactly when the form is accepted. */
  lemma BlogFormAccepts(title: string, category: string, summary: string, tags: seq<string>, content: string)
    ensures BlogFormIssues(Trim(title), category, Trim(summary), tags, content) == []
        <==> FormAccepted(title, category, summary, tags, content)
  {
    var t, s := Trim(title), Trim(summary);
    assert TitleIssues(t) == [] <==> 1 <= |t| <= 100;
    assert SummaryIssues(s) == [] <==> 10 <= |s| <= 300;
  }

  /** `msg` is the message of the last issue attached to the field `path`. */
  predicate IsLastIssue(issues: seq<Issue>, path: string, msg: string) {
    exists i :: 0 <= i < |issues| && issues[i] == Issue(path, msg)
      && forall j :: i < j < |issues| ==> issues[j].path != path
  }

  /** A field has an issue in a list grown by one issue exactly when it had one before or the new
      issue is its. */
  lemma HasIssueAtSnoc(init: seq<Issue>, x: Issue, p: string)
    ensures HasIssueAt(init + [x], p) <==> HasIssueAt(init, p) || x.path == p
  {
    var s := init + [x];
    if HasIssueAt(s, p) && x.path != p {
      var i :| 0 <= i < |s| && s[i].path == p;
      assert init[i].path == p;
    }
    if HasIssueAt(init, p) {
      var i :| 0 <= i < |init| && init[i].path == p;
      assert s[i].path == p;
    }
    assert s[|init|] == x;
  }

  /** An issue on another field leaves the last message of a field as it was. */
  lemma IsLastIssueSnoc(init: seq<Issue>, x: Issue, p: string, msg: string)
    requires x.path != p && IsLastIssue(init, p, msg)
    ensures IsLastIssue(init + [x], p, msg)
  {
    var s := init + [x];
    var i :| 0 <= i < |init| && init[i] == Issue(p, msg)
      && forall j :: i < j < |init| ==> init[j].path != p;
    assert s[i] == Issue(p, msg);
    assert forall j :: i < j < |s| ==> s[j].path != p by {
      forall j | i < j < |s| ensures s[j].path != p {
        if j < |init| { assert s[j] == init[j]; }
      }
    }
  }

  /** The record `validateFormData` builds from a failed parse: every field with an issue, mapped to
      the message of its last issue, since each issue overwrites the one before it. */
  function ErrorsOf(issues: seq<Issue>): (m: map<string, string>)
    ensures forall p :: p in m <==> HasIssueAt(issues, p)
    ensures forall p :: p in m ==> IsLastIssue(issues, p, m[p])
    decreases |issues|
  {
    if issues == [] then map[]
    else
      var init := issues[..|issues| - 1];
      var last := issues[|issues| - 1];
      assert issues == init + [last];
      var before := ErrorsOf(init);
      var m := before[last.path := last.message];
      forall p ensures p in m <==> HasIssueAt(issues, p) {
        HasIssueAtSnoc(init, last, p);
      }
      forall p | p in m ensures IsLastIssue(issues, p, m[p]) {
        if p == last.path {
          assert issues[|issues| - 1] == Issue(p, m[p]);
        } else {
          IsLastIssueSnoc(init, last, p, before[p]);
        }
      }
      m
  }

  /** The loop of `validateFormData` that turns the issues into the error record. */
  method FieldErrors(issues: seq<Issue>) returns (errors: map<string, string>)
    ensures errors == ErrorsOf(issues)
  {
    errors := map[];
    var i := 0;
    while i < |issues|
      invariant 0 <= i <= |issues|
      invariant errors == ErrorsOf(issues[..i])
    {
      assert issues[..i + 1][..i] == issues[..i];
      errors := errors[issues[i].path := issues[i].message];
      i := i + 1;
    }
    assert issues[..i] == issues;
  }

  /** No field has two issues. */
  predicate OneIssuePerField(issues: seq<Issue>) {
    forall i, j :: 0 <= i < j < |issues| ==> issues[i].path != issues[j].path
  }

  /** When no field has two issues, the last message of a field is also its first. */
  lemma LastIsFirst(issues: seq<Issue>, p: string)
    requires OneIssuePerField(issues)
    requires p in ErrorsOf(issues)
    ensures FirstMessage(issues, p) == Some(ErrorsOf(issues)[p])
  {
    var m := FirstMessage(issues, p);
    var i :| 0 <= i < |issues| && issues[i] == Issue(p, m.value);
    var k :| 0 <= k < |issues| && issues[k] == Issue(p, ErrorsOf(issues)[p])
      && forall j :: k < j < |issues| ==> issues[j].path != p;
    assert i == k;
  }

  /** Appending at most one issue on a field the list does not mention yet keeps one issue per
      field. */
  lemma OneIssuePerFieldJoin(a: seq<Issue>, b: seq<Issue>, p: string)
    requires OneIssuePerField(a)
    requires |b| <= 1 && forall x :: x in b ==> x.path == p
    requires forall x :: x in a ==> x.path != p
    ensures OneIssuePerField(a + b)
  {
    var s := a + b;
    forall i, j | 0 <= i < j < |s| ensures s[i].path != s[j].path {
      if j < |a| {
        assert s[i] == a[i] && s[j] == a[j];
      } else {
        assert s[j] == b[0] && s[i] == a[i];
        assert a[i] in a;
      }
    }
  }

  /** The schema never raises two issues on one field: the lower and the upper bound of a length
      cannot both fail. */
  lemma SchemaOneIssuePerField(title: string, category: string, summary: string, tags: seq<string>, content: string)
    ensures OneIssuePerField(BlogFormIssues(title, category, summary, tags, content))
  {
    var a := TitleIssues(title);
    var b := CategoryIssues(category);
    var c := SummaryIssues(summary);
    var d := TagsIssues(tags);
    var e := ContentIssues(content);
    OneIssuePerFieldJoin([], a, "title");
    assert [] + a == a;
    OneIssuePerFieldJoin(a, b, "category");
    OneIssuePerFieldJoin(a + b, c, "summary");
    OneIssuePerFieldJoin(a + b + c, d, "tags");
    OneIssuePerFieldJoin(a + b + c + d, e, "content");
  }

  /** So the record holds for each field the message a form showing the first issue would show. */
  lemma ErrorsShowFirstMessages(title: string, category: string, summary: string, tags: seq<string>, content: string)
    ensures var issues := BlogFormIssues(title, category, summary, tags, content);
      forall p :: p in ErrorsOf(issues) ==> FirstMessage(issues, p) == Some(ErrorsOf(issues)[p])
  {
    var issues := BlogFormIssues(title, category, summary, tags, content);
    SchemaOneIssuePerField(title, category, summary, tags, content);
    forall p | p in ErrorsOf(issues) ensures FirstMessage(issues, p) == Some(ErrorsOf(issues)[p]) {
      LastIsFirst(issues, p);
    }
  }

  // ---------------------------------------------------------------------------------------------
  // Tags

  /** The most tags a post can carry. */
  const MaxTags := 10

  /** The tag `addTag` takes from the input: trimmed and lower-cased. */
  function TagOf(input: string): string {
    Lower(Trim(input))
  }

  /** The tag list after `addTag`: the new tag appended when it is non-empty, not yet listed and
      there are fewer than ten tags. */
  function WithTag(tags: seq<string>, input: string): (r: seq<string>)
    ensures NoDuplicates(tags) ==> NoDuplicates(r)
    ensures |tags| <= MaxTags ==> |r| <= MaxTags
    ensures forall x :: x in r <==> x in tags || (x == TagOf(input) && x != "" && |tags| < MaxTags)
    ensures r == tags || r == tags + [TagOf(input)]
  {
    var t := TagOf(input);
    if t != "" && t !in tags && |tags| < MaxTags then tags + [t] else tags
  }

  /** Once there are ten tags, `addTag` adds nothing. */
  lemma FullTagListIsKept(tags: seq<string>, input: string)
    requires |tags| >= MaxTags
    ensures WithTag(tags, input) == tags
  {
  }

  /** The tag list after `removeTag`: every tag equal to the removed one is dropped, the others keep
      their order. */
  function WithoutTag(tags: seq<string>, tag: string): (r: seq<string>)
    ensures IsSubsequence(r, tags)
    ensures forall x :: x in r <==> x in tags && x != tag
  {
    Filter(tags, (x: string) => x != tag)
  }

  /** Removing the tag just added gives back the list. */
  lemma AddThenRemoveTag(tags: seq<string>, input: string)
    requires TagOf(input) !in tags
    ensures WithoutTag(WithTag(tags, input), TagOf(input)) == tags
  {
    var t := TagOf(input);
    if t != "" && |tags| < MaxTags {
      FilterAppend(tags, t, (x: string) => x != t);
    }
    FilterKeepsAll(tags, (x: string) => x != t);
  }

  // ---------------------------------------------------------------------------------------------
  // The feature image

  /** A chosen file: its MIME type and its size in bytes. */
  datatype File = File(mime: string, size: nat)

  /** The largest feature image accepted, in bytes. */
  const MaxImageBytes := 5 * 1024 * 1024

  /** Why `handleImageUpload` refuses a file, if it does: first a type that is not an image type,
      then a size above 5 MiB. */
  function ImageProblem(file: File): (r: Option<string>)
    ensures r.None? <==> StartsWith(file.mime, "image/") && file.size <= MaxImageBytes
    ensures !StartsWith(file.mime, "image/") ==> r == Some("Please select a valid image file")
    ensures StartsWith(file.mime, "image/") && file.size > MaxImageBytes ==> r == Some("Image size must be less than 5MB")
  {
    if !StartsWith(file.mime, "image/") then Some("Please select a valid image file")
    else if file.size > MaxImageBytes then Some("Image size must be less than 5MB")
    else None
  }

  // ---------------------------------------------------------------------------------------------
  // From HTML to the editor's document

  /** A node of the parsed HTML: text, an element with its attributes and children, or any other
      node (a comment, say). */
  datatype Node =
    | TextNode(text: string)
    | Element(tag: string, attrs: map<string, string>, children: seq<Node>)
    | OtherNode

  /** A mark on a run of text. */
  datatype Mark = Bold | Italic | Link(href: string)

  /** A node of the editor's document. */
  datatype Content =
    | Text(text: string, marks: seq<Mark>)
    | Paragraph(content: seq<Content>)
    | Heading(level: nat, style: string, content: seq<Content>)
    | BulletList(items: seq<Content>)
    | OrderedList(items: seq<Content>)
    | ListItem(content: seq<Content>)
    | Blockquote(content: seq<Content>)
    | HardBreak
    | Image(src: string, alt: string)

  /** The editor's document: its top-level nodes. */
  datatype Doc = Doc(content: seq<Content>)

  /** The empty document: one empty paragraph. */
  const DefaultValue := Doc([Paragraph([])])

  /** `textContent` of a node: the text of every descendant text node, in order. */
  function TextContent(n: Node): string
    decreases n
  {
    match n
    case TextNode(t) => t
    case Element(_, _, children) => TextOf(children)
    case OtherNode => ""
  }

  /** The concatenated `textContent` of a list of nodes. */
  function TextOf(ns: seq<Node>): string
    decreases ns
  {
    if ns == [] then "" else TextContent(ns[0]) + TextOf(ns[1..])
  }

  /** `getAttribute(name) || ''`. */
  function Attr(attrs: map<string, string>, name: string): string {
    if name in attrs then attrs[name] else ""
  }

  /** The `li` elements at and below one node, in document order (the node before its
      descendants). */
  function LisAt(n: Node): (r: seq<Node>)
    ensures forall x :: x in r ==> x.Element? && Lower(x.tag) == "li"
    decreases n
  {
    match n
    case Element(tag, _, children) => (if Lower(tag) == "li" then [n] else []) + LisIn(children)
    case _ => []
  }

  /** `querySelectorAll('li')` below a list of nodes: every `li` element among them and their
      descendants, in document order. */
  function LisIn(ns: seq<Node>): (r: seq<Node>)
    ensures forall x :: x in r ==> x.Element? && Lower(x.tag) == "li"
    decreases ns
  {
    if ns == [] then [] else LisAt(ns[0]) + LisIn(ns[1..])
  }

  /** Selecting the `li` elements of two runs of nodes is selecting them in each, in order. */
  lemma {:induction false} LisInAppend(a: seq<Node>, b: seq<Node>)
    ensures LisIn(a + b) == LisIn(a) + LisIn(b)
    decreases |a|
  {
    if a != [] {
      assert (a + b)[0] == a[0];
      assert (a + b)[1..] == a[1..] + b;
      LisInAppend(a[1..], b);
    } else {
      assert a + b == b;
    }
  }

  /** The list item made of one `li` element: a paragraph holding its text. */
  function ItemOf(li: Node): Content {
    ListItem([Paragraph([Text(TextContent(li), [])])])
  }

  /** The list items of a run of `li` elements, one each, in order. */
  function ItemsOf(lis: seq<Node>): (r: seq<Content>)
    ensures |r| == |lis|
    ensures forall k :: 0 <= k < |lis| ==> r[k] == ItemOf(lis[k])
  {
    seq(|lis|, k requires 0 <= k < |lis| => ItemOf(lis[k]))
  }

  /** `processNode`: the document node one HTML node becomes, or nothing. A text node becomes its
      trimmed text unless that is empty; a paragraph, its converted children; a heading, its text at
      its level; bold, italic and link elements, their text with a mark; a list, one item per `li`
      element below it; an unknown element, its trimmed text unless that is empty. */
  function Converted(n: Node): (r: Option<Content>)
    ensures r.Some? && r.value.Text? && r.value.marks == [] ==>
      r.value.text != "" && Trim(r.value.text) == r.value.text
    ensures n.TextNode? ==> (r.None? <==> IsBlank(n.text))
    ensures n.OtherNode? ==> r.None?
    decreases n
  {
    match n
    case TextNode(t) =>
      TrimIdempotent(t);
      if Trim(t) != "" then Some(Text(Trim(t), [])) else None
    case OtherNode => None
    case Element(tag, attrs, children) =>
      var name := Lower(tag);
      if name == "p" then Some(Paragraph(ConvertedAll(children)))
      else if name == "h1" then Some(Heading(1, "text-4xl font-bold", [Text(TextOf(children), [])]))
      else if name == "h2" then Some(Heading(2, "text-2xl font-bold", [Text(TextOf(children), [])]))
      else if name == "h3" then Some(Heading(3, "text-xl font-bold", [Text(TextOf(children), [])]))
      else if name == "strong" || name == "b" then Some(Text(TextOf(children), [Bold]))
      else if name == "em" || name == "i" then Some(Text(TextOf(children), [Italic]))
      else if name == "ul" then Some(BulletList(ItemsOf(LisIn(children))))
      else if name == "ol" then Some(OrderedList(ItemsOf(LisIn(children))))
      else if name == "blockquote" then Some(Blockquote([Paragraph([Text(TextOf(children), [])])]))
      else if name == "br" then Some(HardBreak)
      else if name == "a" then Some(Text(TextOf(children), [Link(Attr(attrs, "href"))]))
      else if name == "img" then Some(Image(Attr(attrs, "src"), Attr(attrs, "alt")))
      else
        var s := Trim(TextOf(children));
        TrimIdempotent(TextOf(children));
        if s != "" then Some(Text(s, [])) else None
  }

  /** What a list of nodes becomes: each node's conversion, the nodes that become nothing left out. */
  function ConvertedAll(ns: seq<Node>): (r: seq<Content>)
    ensures |r| <= |ns|
    ensures r == [] <==> forall k :: 0 <= k < |ns| ==> Converted(ns[k]).None?
    decreases ns
  {
    if ns == [] then []
    else
      var init := ns[..|ns| - 1];
      var last := Converted(ns[|ns| - 1]);
      assert forall k :: 0 <= k < |init| ==> init[k] == ns[k];
      ConvertedAll(init) + (if last.Some? then [last.value] else [])
  }

  /** Converting two runs of nodes is converting each, in order. */
  lemma {:induction false} ConvertedAllAppend(a: seq<Node>, b: seq<Node>)
    ensures ConvertedAll(a + b) == ConvertedAll(a) + ConvertedAll(b)
    decreases |b|
  {
    if b == [] {
      assert a + b == a;
    } else {
      var init := b[..|b| - 1];
      assert (a + b)[..|a + b| - 1] == a + init;
      assert (a + b)[|a + b| - 1] == b[|b| - 1];
      ConvertedAllAppend(a, init);
    }
  }

  /** `htmlToNovelContent`: the empty document for blank HTML or when no top-level node converts,
      otherwise the converted top-level nodes. `parsed` stands for the nodes `innerHTML` parses
      the HTML into. */
  function Convert(html: string, parsed: seq<Node>): (d: Doc)
    ensures |d.content| >= 1
    ensures IsBlank(html) ==> d == DefaultValue
  {
    if Trim(html) == "" then DefaultValue
    else
      var content := ConvertedAll(parsed);
      if content == [] then DefaultValue else Doc(content)
  }

  /** A node that converts to nothing can be removed from a run without changing what the run
      becomes. */
  lemma DroppedNodeKeepsContent(before: seq<Node>, n: Node, after: seq<Node>)
    requires Converted(n).None?
    ensures ConvertedAll(before + [n] + after) == ConvertedAll(before + after)
  {
    assert ConvertedAll([n]) == [] by {
      assert [n][0] == n;
    }
    ConvertedAllAppend(before, [n]);
    assert ConvertedAll(before + [n]) == ConvertedAll(before);
    ConvertedAllAppend(before + [n], after);
    ConvertedAllAppend(before, after);
  }

  /** A top-level node that converts to nothing can be removed without changing the document. */
  lemma DroppedNodeChangesNothing(html: string, before: seq<Node>, n: Node, after: seq<Node>)
    requires Converted(n).None?
    ensures Convert(html, before + [n] + after) == Convert(html, before + after)
  {
    DroppedNodeKeepsContent(before, n, after);
  }

  /** An element becomes a heading exactly when it is an `h1`, `h2` or `h3`, at that level, with
      the element's whole text. */
  lemma HeadingLevels(tag: string, attrs: map<string, string>, children: seq<Node>)
    ensures var r := Converted(Element(tag, attrs, children));
      (r.Some? && r.value.Heading?) <==> Lower(tag) in {"h1", "h2", "h3"}
    ensures var r := Converted(Element(tag, attrs, children));
      r.Some? && r.value.Heading? ==>
        && r.value.content == [Text(TextOf(children), [])]
        && (r.value.level == 1 <==> Lower(tag) == "h1")
        && (r.value.level == 2 <==> Lower(tag) == "h2")
        && (r.value.level == 3 <==> Lower(tag) == "h3")
  {
    var name := Lower(tag);
    if name !in {"h1", "h2", "h3"} {
      var r := Converted(Element(tag, attrs, children));
      assert r.Some? ==> !r.value.Heading?;
    }
  }

  /** A `ul` or `ol` element becomes a list with one item per `li` element below it, in document
      order; an `li` nested in another comes right after it. */
  lemma ListsHoldEveryItem(tag: string, attrs: map<string, string>, children: seq<Node>)
    requires Lower(tag) == "ul" || Lower(tag) == "ol"
    ensures var r := Converted(Element(tag, attrs, children));
      && r.Some?
      && (r.value.BulletList? <==> Lower(tag) == "ul")
      && (r.value.OrderedList? <==> Lower(tag) == "ol")
      && |r.value.items| == |LisIn(children)|
      && forall k :: 0 <= k < |LisIn(children)| ==> r.value.items[k] == ItemOf(LisIn(children)[k])
  {
  }

  /** An `li` element that holds another `li` yields an item for each, the outer one first. */
  lemma NestedItemsFollowTheirParent(liTag: string, attrs: map<string, string>, inner: Node, rest: seq<Node>)
    requires Lower(liTag) == "li" && inner.Element? && Lower(inner.tag) == "li"
    ensures var outer := Element(liTag, attrs, [inner]);
      LisIn([outer] + rest) == [outer, inner] + LisIn(inner.children) + LisIn(rest)
  {
    var outer := Element(liTag, attrs, [inner]);
    assert ([outer] + rest)[1..] == rest;
    assert [inner][1..] == [];
    assert LisIn([inner]) == LisAt(inner) + LisIn([]);
    assert LisAt(inner) == [inner] + LisIn(inner.children);
    assert LisAt(outer) == [outer] + LisIn([inner]);
  }

  /** `processNode`, which builds a paragraph's content by pushing each converted child. */
  method ProcessNode(n: Node) returns (r: Option<Content>)
    ensures r == Converted(n)
    decreases n
  {
    match n {
      case TextNode(t) =>
        var text := Trim(t);
        r := if text != "" then Some(Text(text, [])) else None;
      case OtherNode =>
        r := None;
      case Element(tag, attrs, children) =>
        var name := Lower(tag);
        if name == "p" {
          var content := ProcessChildren(children);
          r := Some(Paragraph(content));
        } else if name == "ul" || name == "ol" {
          var items := ListItems(LisIn(children));
          r := if name == "ul" then Some(BulletList(items)) else Some(OrderedList(items));
        } else {
          r := Converted(n);
        }
    }
  }

  /** The `forEach` over a paragraph's children that pushes each one that converts. */
  method ProcessChildren(children: seq<Node>) returns (content: seq<Content>)
    ensures content == ConvertedAll(children)
    decreases children
  {
    content := [];
    var i := 0;
    while i < |children|
      invariant 0 <= i <= |children|
      invariant content == ConvertedAll(children[..i])
    {
      assert children[..i + 1][..i] == children[..i];
      var processed := ProcessNode(children[i]);
      if processed.Some? {
        content := content + [processed.value];
      }
      i := i + 1;
    }
    assert children[..i] == children;
  }

  /** The `forEach` over the selected `li` elements that pushes one list item each. */
  method ListItems(lis: seq<Node>) returns (items: seq<Content>)
    ensures items == ItemsOf(lis)
  {
    items := [];
    var i := 0;
    while i < |lis|
      invariant 0 <= i <= |lis|
      invariant items == ItemsOf(lis[..i])
    {
      items := items + [ItemOf(lis[i])];
      i := i + 1;
    }
    assert lis[..i] == lis;
  }

  /** `htmlToNovelContent`, which pushes each converted top-level node. */
  method HtmlToNovelContent(html: string, parsed: seq<Node>) returns (d: Doc)
    ensures d == Convert(html, parsed)
  {
    if Trim(html) == "" {
      return DefaultValue;
    }
    var content: seq<Content> := [];
    var i := 0;
    while i < |parsed|
      invariant 0 <= i <= |parsed|
      invariant content == ConvertedAll(parsed[..i])
    {
      assert parsed[..i + 1][..i] == parsed[..i];
      var processed := ProcessNode(parsed[i]);
      if processed.Some? {
        content := content + [processed.value];
      }
      i := i + 1;
    }
    assert parsed[..i] == parsed;
    d := if content == [] then DefaultValue else Doc(content);
  }

  // ---------------------------------------------------------------------------------------------
  // The form

  /** The post being edited, as the page loads it. */
  datatype EditedPost = EditedPost(
    id: string, title: string, summary: Option<string>, tags: seq<string>, content: string,
    image: string, categoryId: string)

  /** What `handleSubmit` sends to the edit action. */
  datatype EditData = EditData(
    title: string, category: string, summary: string, content: string, tags: seq<string>,
    featureImage: string, username: string, postId: Option<string>)

  /** How the edit action answered: a result carrying `error`, any other result, or a throw. */
  datatype EditOutcome = ActionError(error: string) | ActionDone | ActionThrew

  datatype Toast = ErrorToast(message: string) | SuccessToast(message: string)

  const FixErrorsMessage := "Please fix the validation errors"
  const EditedMessage := "Blog edited successfully!"
  const EditFailedMessage := "Failed to edit blog. Please try again."
  const UploadFailedMessage := "Failed to upload image"

  /** The toast `handleSubmit` raises for the action's answer; an empty `error` is falsy and counts
      as success. */
  function OutcomeToast(outcome: EditOutcome): (t: Toast)
    ensures t.SuccessToast? <==> outcome.ActionDone? || (outcome.ActionError? && outcome.error == "")
  {
    match outcome
    case ActionError(e) => if e != "" then ErrorToast(e) else SuccessToast(EditedMessage)
    case ActionDone => SuccessToast(EditedMessage)
    case ActionThrew => ErrorToast(EditFailedMessage)
  }

  /** The form's state. */
  class Form {
    var title: string
    var category: string
    var summary: string
    var content: string
    var tags: seq<string>
    var tagInput: string
    var featureImage: string
    var imagePreview: Option<string>
    var pending: bool
    var errors: map<string, string>
    var toasts: seq<Toast>
    var postId: Option<string>

    /** The form filled from the post being edited, or empty when there is none. */
    constructor (post: Option<EditedPost>)
      ensures post.None? ==>
        title == "" && category == "" && summary == "" && content == "" && tags == []
        && featureImage == "" && imagePreview == None && postId == None
      ensures post.Some? ==>
        var p := post.value;
        && title == p.title && category == p.categoryId && content == p.content && tags == p.tags
        && summary == (if p.summary.Some? then p.summary.value else "")
        && featureImage == p.image
        && imagePreview == (if p.image != "" then Some(p.image) else None)
        && postId == Some(p.id)
      ensures tagInput == "" && !pending && errors == map[] && toasts == []
    {
      if post.None? {
        title, category, summary, content, tags := "", "", "", "", [];
        featureImage, imagePreview, postId := "", None, None;
      } else {
        var p := post.value;
        title, category, content, tags := p.title, p.categoryId, p.content, p.tags;
        summary := if p.summary.Some? then p.summary.value else "";
        featureImage := p.image;
        imagePreview := if p.image != "" then Some(p.image) else None;
        postId := Some(p.id);
      }
      tagInput, pending, errors, toasts := "", false, map[], [];
    }

    /** `addTag`: the trimmed, lower-cased input is appended when it is non-empty, new and there
        are fewer than ten tags, and the input is then cleared; otherwise nothing changes. */
    method AddTag()
      modifies this
      ensures tags == WithTag(old(tags), old(tagInput))
      ensures tagInput == (if tags == old(tags) then old(tagInput) else "")
      ensures NoDuplicates(old(tags)) && |old(tags)| <= MaxTags ==> NoDuplicates(tags) && |tags| <= MaxTags
      ensures title == old(title) && category == old(category) && summary == old(summary)
      ensures content == old(content) && featureImage == old(featureImage) && toasts == old(toasts)
      ensures imagePreview == old(imagePreview) && pending == old(pending) && errors == old(errors)
      ensures postId == old(postId)
    {
      var t := TagOf(tagInput);
      if t != "" && t !in tags && |tags| < MaxTags {
        tags := tags + [t];
        tagInput := "";
      }
    }

    /** `removeTag`. */
    method RemoveTag(tag: string)
      modifies this
      ensures tags == WithoutTag(old(tags), tag)
      ensures tagInput == old(tagInput) && title == old(title) && category == old(category)
      ensures summary == old(summary) && content == old(content) && featureImage == old(featureImage)
      ensures toasts == old(toasts) && imagePreview == old(imagePreview) && pending == old(pending)
      ensures errors == old(errors) && postId == old(postId)
    {
      tags := WithoutTag(tags, tag);
    }

    /** `handleImageUpload`. A refused file raises its toast and changes nothing else, and so does
        an upload request that throws; otherwise the image and its preview become `dataUrl`, what
        the file reader produced. */
    method HandleImageUpload(file: Option<File>, uploadThrew: bool, dataUrl: string)
      modifies this
      ensures file.None? ==> featureImage == old(featureImage) && imagePreview == old(imagePreview) && toasts == old(toasts)
      ensures file.Some? && ImageProblem(file.value).Some? ==>
        featureImage == old(featureImage) && imagePreview == old(imagePreview)
        && toasts == old(toasts) + [ErrorToast(ImageProblem(file.value).value)]
      ensures file.Some? && ImageProblem(file.value).None? && uploadThrew ==>
        featureImage == old(featureImage) && imagePreview == old(imagePreview)
        && toasts == old(toasts) + [ErrorToast(UploadFailedMessage)]
      ensures file.Some? && ImageProblem(file.value).None? && !uploadThrew ==>
        featureImage == dataUrl && imagePreview == Some(dataUrl) && toasts == old(toasts)
      ensures title == old(title) && category == old(category) && summary == old(summary)
      ensures content == old(content) && tags == old(tags) && errors == old(errors)
      ensures tagInput == old(tagInput) && pending == old(pending) && postId == old(postId)
    {
      if file.None? {
        return;
      }
      var problem := ImageProblem(file.value);
      if problem.Some? {
        toasts := toasts + [ErrorToast(problem.value)];
        return;
      }
      if uploadThrew {
        toasts := toasts + [ErrorToast(UploadFailedMessage)];
        return;
      }
      featureImage, imagePreview := dataUrl, Some(dataUrl);
    }

    /** `removeImage`. */
    method RemoveImage()
      modifies this
      ensures featureImage == "" && imagePreview == None
      ensures title == old(title) && category == old(category) && summary == old(summary)
      ensures content == old(content) && tags == old(tags) && toasts == old(toasts)
      ensures tagInput == old(tagInput) && pending == old(pending) && errors == old(errors)
      ensures postId == old(postId)
    {
      featureImage, imagePreview := "", None;
    }

    /** `validateFormData`: accepts exactly the forms `FormAccepted` describes, and records the
        error of each field the schema rejects (none when it accepts). */
    method Validate() returns (ok: bool)
      modifies this
      ensures ok <==> FormAccepted(title, category, summary, tags, content)
      ensures ok ==> errors == map[]
      ensures !ok ==> errors == ErrorsOf(BlogFormIssues(Trim(title), category, Trim(summary), tags, content))
      ensures title == old(title) && category == old(category) && summary == old(summary)
      ensures content == old(content) && tags == old(tags) && featureImage == old(featureImage)
      ensures toasts == old(toasts) && pending == old(pending) && postId == old(postId)
      ensures tagInput == old(tagInput) && imagePreview == old(imagePreview)
    {
      var issues := BlogFormIssues(Trim(title), category, Trim(summary), tags, content);
      BlogFormAccepts(title, category, summary, tags, content);
      ok := issues == [];
      if ok {
        errors := map[];
      } else {
        errors := FieldErrors(issues);
      }
    }

    /** `handleSubmit`. A rejected form raises the validation toast and sends nothing. An accepted
        one is sent with title and summary trimmed, the action's answer raises its toast, and the
        form stops pending. `outcome` is how the edit action answered. */
    method HandleSubmit(username: string, outcome: EditOutcome) returns (sent: Option<EditData>)
      modifies this
      ensures sent.Some? <==> FormAccepted(old(title), old(category), old(summary), old(tags), old(content))
      ensures sent.None? ==> toasts == old(toasts) + [ErrorToast(FixErrorsMessage)] && pending == old(pending)
      ensures sent.Some? ==>
        && sent.value == EditData(Trim(old(title)), old(category), Trim(old(summary)), old(content),
             old(tags), old(featureImage), username, old(postId))
        && toasts == old(toasts) + [OutcomeToast(outcome)]
        && !pending
      ensures title == old(title) && category == old(category) && summary == old(summary)
      ensures content == old(content) && tags == old(tags) && featureImage == old(featureImage)
      ensures errors == if sent.Some? then map[]
        else ErrorsOf(BlogFormIssues(Trim(old(title)), old(category), Trim(old(summary)), old(tags), old(content)))
      ensures tagInput == old(tagInput) && imagePreview == old(imagePreview) && postId == old(postId)
    {
      var ok := Validate();
      if !ok {
        toasts := toasts + [ErrorToast(FixErrorsMessage)];
        return None;
      }
      pending := true;
      sent := Some(EditData(Trim(title), category, Trim(summary), content, tags, featureImage, username, postId));
      toasts := toasts + [OutcomeToast(outcome)];
      pending := false;
    }
  }
}
