# NHPC BlogApp, modelled in Dafny

This is a model of the core of the NHPC BlogApp. The app is a Next.js blog where employees write
posts, an administrator publishes or rejects them, and readers browse, search and like them. The model covers:

- **Server actions**: create a post (`createBlogAction`), review a post (publish or reject), delete
  a post. Each is a method on a `Schema.Database` object. That object holds the Prisma tables
  (users, posts, categories, likes, password-reset tokens) as sequence fields. Its `Valid()`
  invariant states:
  - the uniqueness of the id columns, of the user's email, name and employee id, and of the
    category name;
  - for reset tokens, unique ids and token strings, an existing owner for every token, and at most
    one token per user;
  - but not the like table's unique (postId, authorId) pair, so the like counts are stated for any
    list of like rows, duplicates included.
- **API routes**: registration, profile edit, forgot and reset password, category creation, the
  admin check, the published feed, the liked posts and the like count.
- **Password-reset tokens**: hex generation, replacement, validation and expiry, as in
  `lib/auth-utils.ts`.
- **Login**: the two credential providers of `auth.ts`, and its redirect callback.
- **Client list components**: `BlogPage`, `ReviewPage`, `UserBlogList`, `HomeBlogList`,
  `ProfileBlogList` and `ManageCategories`. They share one model of the sidebar, the search, the
  pagination, the like counts and the status badges (module `Listing`). The components that keep
  state in React hooks are classes whose fields are that state.
- **Forms and their zod schemas**: the blog creation form, the blog editing form, the two
  registration forms and the profile form. zod is modelled as the ordered list of issues it
  reports (module `Zod`).
- **The editing form's HTML to Novel/TipTap converter**: it works on a parsed node tree.
- **The editor's image-upload guard.**

Randomness, the clock, bcrypt, mail delivery, the ERP service, `fetch` outcomes, `window.confirm`
and the browser's HTML parser are parameters of the operations that use them.

## Model

| member | source | states |
|---|---|---|
| Text.Trim | components/ManageCategories.tsx:83 | The trimmed string is no longer than the input, and it is empty exactly when the input is all white space. |
| Text.TrimIdempotent | components/content-form.tsx:77 | Trimming a trimmed string changes nothing. |
| Text.TrimIsSlice | components/ManageCategories.tsx:83 | The trimmed string is the input without its leading and trailing white space, and if it is not empty it starts and ends with a character that is not white space. |
| Text.Less | components/BlogPage.tsx:78 | The order of the default `sort()`: a proper prefix comes before the longer string, a string never comes before its own prefix, and a smaller first character comes first. |
| Text.Lower | app/api/forgot-password/route.ts:19 | Lower-casing keeps the length and maps each character on its own: A–Z to a–z, everything else unchanged. |
| Text.LowerIdempotent | components/BlogPage.tsx:89-97 | Lower-casing twice is lower-casing once. |
| Text.Includes | components/BlogPage.tsx:90 | `includes` holds exactly when the needle occurs at some position of the haystack. |
| Text.SplitOnSpace | components/BlogPage.tsx:129 | `split(/\s+/)` gives one piece more than the input has runs of white space, and no piece contains white space. |
| Zod.Check | app/api/user/route.ts:9 | A zod check adds no issue when it holds, and otherwise exactly one issue, with its message, at its field. |
| Zod.FirstMessage | components/form/registerForm.tsx:26-27 | The message shown under a field is present exactly when the field has an issue, and it is the message of one of that field's issues. |
| Zod.FirstMessageAfter | components/form/registerForm.tsx:26-27 | Issues of other fields placed before a field's issue do not change the message shown for that field. |
| Zod.FirstMessageAt | components/form/registerForm.tsx:26-27 | The issue at a position is the one shown for its field when no earlier issue has that field. |
| Schema.ParseRole | app/api/user/route.ts:11-13 | The role enumeration accepts exactly "user" and "admin". |
| Schema.ParseRoleText | app/api/user/route.ts:53 | The role read from its text prints back as the same text. |
| ReviewActions.WithStatus | app/actions/reviewActions.ts:10-25 | The update keeps the post table's length. Only rows with the post id take the new status, and every other field and row is kept. |
| ReviewActions.WithStatusLookup | app/actions/reviewActions.ts:10-25 | After the update, the post id finds its old row with the new status, whatever its previous status. Every other id finds what it found before. |
| ReviewActions.WithStatusUnique | app/actions/reviewActions.ts:10-25 | The update keeps post ids unique. |
| ReviewActions.ReviewBlog | app/actions/reviewActions.ts:6-29 | "publish" sets the status Published and "reject" sets Rejected, through the update. Any other action throws "Cannot Review" and changes nothing. A missing post throws Prisma's not-found error. The caller is not checked, and the other tables are unchanged. |
| EditorAction.CreateBlogAction | app/actions/editorAction.ts:7-42 | A user name that is unknown, or whose id is empty, fails with "NO User Id" and inserts nothing. Otherwise exactly one post is appended: under review, authored by that user, with the form's fields. The result redirects to "/blog/" plus its id. |
| EditorAction.CreatedPostLookup | app/actions/editorAction.ts:22-30 | The new id finds a post under review that belongs to the author. Every other id finds what it found before. |
| EditorAction.NewPost | app/actions/editorAction.ts:22-30 | The inserted row has the given id, author and creation instant, the form's title, categories and content, and status under review. |
| EditorAction.NewPostLeavesFeed | app/actions/editorAction.ts:22-30 | A newly submitted post leaves the public feed unchanged, because it waits for review. |
| DeleteBlog.WithoutPostLookup | app/actions/deleteBlog.ts:6-8 | After the delete, the id finds no post, and every other id finds what it found before. |
| DeleteBlog.WithoutPostRemovesOne | app/actions/deleteBlog.ts:6-8 | With unique ids, deleting a present post shortens the table by exactly one. |
| DeleteBlog.DeleteBlogAction | app/actions/deleteBlog.ts:4-12 | A missing id throws Prisma's not-found error and changes nothing. Otherwise the post is removed and the table is one shorter. |
| CategoriesRoute.CreateCategoryRoute | app/api/categories/route.ts:4-24 | An unreadable body or a missing name gets no reply and changes nothing. A taken name answers 409 "Category already exists" and changes nothing. Otherwise one category is appended with 201 "Category created successfully". Category names stay unique. |
| CategoriesRoute.CreatedCategoryIsFound | app/api/categories/route.ts:9-19 | After creation, the name finds the new category. |
| AuthUtils.DigitValue | lib/auth-utils.ts:6 | A lower-case hex digit decodes to the value it was written from. |
| AuthUtils.Hex | lib/auth-utils.ts:6 | `toString('hex')` writes two lower-case hex digits per byte. |
| AuthUtils.Unhex | lib/auth-utils.ts:6 | A successful decoding gives one byte per two digits. |
| AuthUtils.UnhexHex | lib/auth-utils.ts:6 | Decoding the hex of any bytes gives back those bytes. |
| AuthUtils.GenerateResetToken | lib/auth-utils.ts:5-7 | The token has 64 lower-case hex digits and decodes back to the 32 random bytes. |
| AuthUtils.ReplacedTokenIsOnlyOne | lib/auth-utils.ts:13-25 | After deleting the user's tokens and inserting the new row, the new row is the user's only token. |
| AuthUtils.ReplacedTokenKeepsOthers | lib/auth-utils.ts:14-16 | Other users' tokens are unchanged. |
| AuthUtils.OthersOfOthers | lib/auth-utils.ts:14-16 | Deleting one user's tokens leaves every other user's token list as it was. |
| AuthUtils.FilterTokensValid | lib/auth-utils.ts:14-16 | Deleting any set of token rows keeps the token table valid: ids, tokens and owners stay unique, and every owner exists. |
| AuthUtils.CreatePasswordResetToken | lib/auth-utils.ts:9-28 | Deletes the user's tokens and inserts a new row that expires one hour (3600000 ms) after `now`. The deletion happens first. Then an unknown user id is a foreign-key error, and a token already in use is a uniqueness error; in both cases no row is inserted. On success the new row is the user's only token. Other users' tokens are unchanged. |
| AuthUtils.ValidateResetToken | lib/auth-utils.ts:30-49 | An unknown token is "Invalid token" and changes nothing. A token whose expiry is strictly before `now` is deleted and reported "Token expired". Otherwise it is valid, with its owner and row id, and nothing changes. |
| AuthUtils.TokenLookupFindsRow | lib/auth-utils.ts:31-34 | In a valid token table, every row is what its token finds. |
| AuthUtils.ConsumedTokenIsGone | app/api/reset-password/route.ts:42-44 | After the row is deleted by its id, the token finds nothing. |
| ResetPassword.WithPassword | app/api/reset-password/route.ts:38-41 | Only the owner's password changes. Every other row and field is kept. |
| ResetPassword.WithPasswordValid | app/api/reset-password/route.ts:38-41 | Changing a password keeps the user table valid, and the same ids find a user. |
| ResetPassword.SameIdsFound | app/api/reset-password/route.ts:38-41 | A user table whose rows keep their ids in place finds a user for exactly the same ids. |
| ResetPassword.ResetKeepsValid | app/api/reset-password/route.ts:37-45 | The transaction keeps the database valid. |
| ResetPassword.ResetTransaction | app/api/reset-password/route.ts:37-45 | The password update and the token delete happen together. Afterwards the owner has the new hash and the token is gone. |
| ResetPassword.ResetWithToken | app/api/reset-password/route.ts:24-49 | An unknown token answers 400 "Invalid token" and changes nothing. An expired token is deleted and answers 400 "Token expired". Otherwise the answer is 200 "Password reset successfully", the owner has the new hash, and the token finds nothing. |
| ResetPassword.ResetPasswordRoute | app/api/reset-password/route.ts:5-58 | An unreadable body answers 500. A missing token or password answers 400 "Token and password are required". A password shorter than 8 answers 400 before the token is looked up. The rest is as `ResetWithToken`, and on success the owner's password becomes `hash` of the submitted password. |
| ForgotPassword.ResetLink | app/api/forgot-password/route.ts:33 | The link starts with the base URL followed by "/reset-password?token=", and the rest of it is the token. |
| ForgotPassword.ResetLinkDistinguishesTokens | app/api/forgot-password/route.ts:33 | Under one base URL, two links are equal exactly when their tokens are, so a link names one token. |
| ForgotPassword.ForgotPasswordRoute | app/api/forgot-password/route.ts:6-47 | An unreadable body answers 500 and a missing email 400 "Email is required". The user is looked up by the lower-cased email. An unknown email gets the same success reply, with no mail and no change. A known one gets a fresh token and a mail to the stored address carrying the link; a failed delivery or a token clash answers 500. |
| UserRoute.ParseUser | app/api/user/route.ts:8-15 | The schema accepts a body exactly when: the username has 1 to 20 characters, the email is well formed, the type is "user" or "admin", and the password has at least 8 characters. The fields are kept. |
| UserRoute.AddUserValid | app/api/user/route.ts:31-56 | Appending a user keeps the user table valid when the user's id, email and name are all new and they have no employee id. |
| UserRoute.NewUser | app/api/user/route.ts:49-56 | The inserted user has the given id, the registration's name, email and role, the hash as password, and no profile fields. |
| UserRoute.FindAppendIds | app/api/user/route.ts:49-56 | Every id that found a user still finds one after a user is appended. |
| UserRoute.RegisterRoute | app/api/user/route.ts:25-72 | A body the schema refuses answers 500 "Internal Server Error". A taken email answers 409, checked before a taken username (also 409). Otherwise one user is appended with the chosen role and `hash` of the submitted password, answering 201 with the user minus the password. |
| UserRoute.RegisteredUserIsFound | app/api/user/route.ts:31-44 | After registration, the email and the username find the new user. |
| UserEditRoute.EditSchemaAccepts | app/api/user/edit/route.ts:6-29 | The schema accepts a body exactly when: the username is present, the image is a URL, the designation is one of the 14 allowed, and the bio has at most 100 characters. |
| UserEditRoute.WithProfile | app/api/user/edit/route.ts:35-42 | Only the named user's image, designation and bio change. |
| UserEditRoute.WithProfileValid | app/api/user/edit/route.ts:35-42 | The profile update keeps the user table valid, and every id that found a user still does. |
| UserEditRoute.UpdateProfile | app/api/user/edit/route.ts:35-42 | The method updates the user table to `WithProfile` of it and changes no other table. |
| UserEditRoute.EditProfileRoute | app/api/user/edit/route.ts:31-51 | A body the schema refuses, or an unknown name, is rethrown with no reply and changes nothing. Otherwise only that user's profile changes, answering 200 "Profile Updated" with the user minus the password. |
| UserEditRoute.EditedUserIsFound | app/api/user/edit/route.ts:35-42 | After the update, the name finds the user carrying the new image, designation and bio. |
| IsAdminRoute.RoleLookup | app/api/isAdmin/route.ts:4-13 | A missing or empty name is refused. Otherwise a role is returned exactly when some user has that name. |
| IsAdminRoute.RoleOfNamedUser | app/api/isAdmin/route.ts:8-12 | The role returned is that user's role. |
| AllPostsRoute.Feed | app/api/posts/all/route.ts:4-12 | The feed holds published posts only, newest first, and as many as there are published posts up to 10. Each post appears in it at most as often as among the published posts, so nothing is repeated. |
| AllPostsRoute.FeedIsNewest | app/api/posts/all/route.ts:5-9 | No published post left out of the feed is newer than one in it. |
| AllPostsRoute.FeedHoldsAllWhenFew | app/api/posts/all/route.ts:5-9 | With at most 10 published posts, the feed holds each of them exactly once. |
| NewestFirst.Sort | app/api/posts/all/route.ts:7 | `orderBy createdAt desc`: the result is newest first and a permutation of the input. |
| NewestFirst.Insert | app/api/posts/all/route.ts:7 | Inserting into a newest-first list keeps it newest first. Its members are the post and the list's. |
| NewestFirst.InsertCounts | app/api/posts/all/route.ts:7 | Insertion adds one occurrence of the post and keeps the others. |
| NewestFirst.SortSameMembers | app/api/posts/liked/route.ts:17 | Sorting keeps exactly the posts it was given. |
| NewestFirst.SortTwoTied | app/api/posts/all/route.ts:7 | Two posts with the same `createdAt` come out in the reverse of their storage order. |
| LikedPostsRoute.LikedPosts | app/api/posts/liked/route.ts:4-21 | A post is listed exactly when the user has a like row on it, whatever that row's flag. The list is newest first, and it has the same posts as the filter of the table. |
| LikedPostsRoute.LikedIgnoresFlag | app/api/posts/liked/route.ts:7-16 | Toggling a like row's flag does not change the list. |
| LikeCountRoute.LikeCount | app/api/posts/likecount/route.ts:4-12 | The count is at most the number of like rows, and it is 0 exactly when no row is on the post. |
| LikeCountRoute.LikeCountIgnoresFlag | app/api/posts/likecount/route.ts:7-9 | The count is the post's `liked` rows plus its unliked rows: the flag is not looked at. |
| LikeCountRoute.LikeCountAppend | app/api/posts/likecount/route.ts:7-9 | A new row on the post adds one to its count. A row on another post adds nothing. |
| AuthConfig.EmailAuthorize | auth.ts:15-39 | Absent credentials give no user. Every refusal is "Invalid credentials". Sign-in succeeds exactly when an account has the email and the hash comparison accepts the password. The user returned has no password. |
| AuthConfig.EmailLoginSignsInOwner | auth.ts:20-28 | An account's email, with a password the comparison accepts for its hash, signs in as that account, without its password. |
| AuthConfig.EmployeeIdAuthorize | auth.ts:40-74 | As written: absent credentials give no user, and every refusal is "Invalid credentials". A user is signed in exactly when an employee id is given, a user has it, and the ERP service answered at all, whatever its status. |
| AuthConfig.RefusedErpLoginSucceeds | auth.ts:49-63 | A 401 from the ERP service still signs the user in. |
| AuthConfig.EmployeeIdAuthorizeChecked | auth.ts:49-66 | The corrected provider signs a user in exactly when an employee id is given, a user has it, and the ERP service answers with a 2xx status. |
| AuthConfig.CheckedAgreesOnOk | auth.ts:49-66 | The corrected provider agrees with the written one when the ERP request fails or answers 2xx. On any other answer, the corrected provider refuses with "Invalid credentials". |
| AuthConfig.Redirect | auth.ts:88-92 | A relative URL is joined to the base. A URL of the base's origin is kept. Another origin goes to the base. A URL that cannot be parsed is an error. Every result starts with the base or has the base's origin. |
| Listing.EmptyTermMatches | components/BlogPage.tsx:89 | The empty search term matches every field. |
| Listing.CeilDiv | components/BlogPage.tsx:104 | The quotient is the least number of groups of `d` covering `n`. |
| Listing.Page | components/BlogPage.tsx:106-110 | A page is at most 6 posts, read in order from post `6(page-1)`. It is non-empty exactly when the page is at most the page count. |
| Listing.PagesPartition | components/BlogPage.tsx:103-110 | The pages, read in order, give back the filtered list, so each post is on exactly one page. |
| Listing.PagesPrefix | components/BlogPage.tsx:103-110 | The first `k` pages are the first `6k` posts. |
| Listing.ReadMinutes | components/BlogPage.tsx:126-132 | At least one minute. For non-empty content it is the least number of minutes holding the words at 200 per minute. |
| Listing.LikeCount | components/BlogPage.tsx:134-137 | The number of like rows with the flag is at most the number of rows, and it is 0 when the likes are absent. |
| Listing.LikeCountsSplit | components/BlogPage.tsx:134-137 | The `liked === true` count and the `liked === false` count add up to all rows. |
| Listing.LikeCountStep | components/BlogPage.tsx:134-137 | No rows count 0. Appending a row adds one to the count exactly when its `liked` is the flag counted, and nothing otherwise. |
| Listing.StatusBadge | components/ReviewPage.tsx:355-358 | The badge reads "Published", "Under Review" or "Rejected" exactly when the post has that status. |
| Listing.StatusBadgeDistinguishes | components/ProfileBlogList.tsx:162-165 | Different statuses get different badges. |
| BlogPage.Categories | components/BlogPage.tsx:74-80 | The sidebar starts with 'All'. After it come exactly the non-empty category names of the posts, strictly sorted, so each appears once. |
| BlogPage.FilteredPosts | components/BlogPage.tsx:82-101 | The result is a subsequence of the posts. A post is listed exactly when it is in the category and matches the search. |
| BlogPage.FilterNothingOut | components/BlogPage.tsx:85-89 | With 'All' and an empty search, every post is listed. |
| BlogPage.PaginatedPosts | components/BlogPage.tsx:103-110 | The page shows at most 6 posts, each of them a listed post. |
| BlogPage.CategoryCount | components/BlogPage.tsx:112-115 | The count is at most the number of posts, and for 'All' it is all of them. |
| BlogPage.CategoryCountIsListed | components/BlogPage.tsx:112-115 | The count beside a category is the number of posts listed under it with an empty search. |
| BlogPage.CardLikes | components/BlogPage.tsx:134-137 | A card without likes shows 0. Otherwise the count shown and the count of `liked === false` rows add up to all the card's rows. |
| ReviewPage.TagSidebar | components/ReviewPage.tsx:62-66 | The sidebar starts with 'All'. After it come exactly the non-empty tags of the posts, strictly sorted. |
| ReviewPage.FilteredPosts | components/ReviewPage.tsx:68-83 | The result is a subsequence of the posts. A post is listed exactly when it carries the tag and matches the search on title, content, tags or author. |
| ReviewPage.TagCount | components/ReviewPage.tsx:142-145 | The count is at most the number of posts, and for 'All' it is all of them. |
| ReviewPage.TagCountIsListed | components/ReviewPage.tsx:142-145 | The count beside a tag is the number of posts listed under it with an empty search. |
| ReviewPage.CardLikes | components/ReviewPage.tsx:164-167 | A card without likes shows 0. Otherwise the count shown and the count of `liked === true` rows add up to all the card's rows: the card counts the rows that are not likes. |
| ReviewPage.EnabledButtonChangesStatus | components/ReviewPage.tsx:364-377 | A button that can be pressed always changes the post's status. Both are enabled on a post under review that is not loading. |
| ReviewPage.PublishDisabled | components/ReviewPage.tsx:366 | Publish is disabled exactly while this card's request runs or when its badge already reads "Published". |
| ReviewPage.RejectDisabled | components/ReviewPage.tsx:373 | Reject is disabled exactly while this card's request runs or when its badge already reads "Rejected". |
| ReviewPage.WithoutCard | components/ReviewPage.tsx:123-127 | The result is a subsequence that keeps exactly the cards of other posts. |
| ReviewPage.WithoutToast | components/ReviewPage.tsx:107-109 | The result is a subsequence that keeps exactly the toasts with other ids. |
| ReviewPage.ReviewList.constructor | components/ReviewPage.tsx:56-60 | The page starts with the given posts, no toast, nothing loading. |
| ReviewPage.ReviewList.RemoveToast | components/ReviewPage.tsx:107-109 | Only the toasts with that id are dropped. |
| ReviewPage.ReviewList.HandleReviewAction | components/ReviewPage.tsx:112-140 | The action is sent to the review server action. When the post exists, it takes the new status and leaves the list, and a success toast naming it is raised. Otherwise the list is kept and a failure toast is raised. Loading ends either way. |
| UserBlogList.Categories | components/UserBlogList.tsx:47-51 | The sidebar starts with 'All'. After it come exactly the non-empty category names of the posts, strictly sorted. |
| UserBlogList.FilteredPosts | components/UserBlogList.tsx:53-69 | The result is a subsequence of the posts. A post is listed exactly when it is in the category and matches the search. |
| UserBlogList.CategoryCount | components/UserBlogList.tsx:71-74 | The count is at most the number of posts, and for 'All' it is all of them. |
| UserBlogList.CategoryCountIsListed | components/UserBlogList.tsx:71-74 | The count beside a category is the number of posts listed under it with an empty search. |
| UserBlogList.CardLikes | components/UserBlogList.tsx:95-98 | A card without likes shows 0. Otherwise the count shown and the count of `liked === true` rows add up to all the card's rows. |
| UserBlogList.Header | components/UserBlogList.tsx:108-110 | The header shows the first post's author name and bio. It reads index 0, so the list needs a post. |
| UserBlogList.EveryPostLooksPublished | components/UserBlogList.tsx:250 | As written, every post is badged "Published". |
| UserBlogList.StatusLabelAsWritten | components/UserBlogList.tsx:250 | As written, the badge is "Published" or "Draft", and "Draft" exactly when the status text is empty. |
| UserBlogList.StatusLabel | components/UserBlogList.tsx:245-250 | As intended, the badge reads "Published" exactly when the post is published, matching the badge colour, and "Draft" otherwise. |
| UserBlogList.LabelsDisagreeUnlessPublished | components/UserBlogList.tsx:245-250 | The written badge and the intended one disagree on every post that is not published. |
| HomeBlogList.WithNewPost | components/HomeBlogList.tsx:84-94 | A post whose id is present leaves the list unchanged. Otherwise it is put first, ahead of the others in their order. |
| HomeBlogList.NewPostKeepsIdsDistinct | components/HomeBlogList.tsx:87-90 | Adding a post keeps ids distinct. |
| HomeBlogList.NewPostIdempotent | components/HomeBlogList.tsx:84-94 | Adding the same post twice is adding it once. |
| HomeBlogList.WithUpdatedPost | components/HomeBlogList.tsx:97-105 | Each post with the id is replaced by the new one, and the others stay in place. |
| HomeBlogList.UpdateKeepsIds | components/HomeBlogList.tsx:97-105 | Updating keeps every id in place. The updated post is listed exactly when its id was. |
| HomeBlogList.WithoutPost | components/HomeBlogList.tsx:108-114 | The result is a subsequence that keeps exactly the posts with other ids. |
| HomeBlogList.RemoveThenAdd | components/HomeBlogList.tsx:84-114 | Removing a post and adding it back puts it first, ahead of the rest in their order. |
| HomeBlogList.WithLikeCount | components/HomeBlogList.tsx:117-127 | Posts with the id take the new count, and the rest are kept in place. |
| HomeBlogList.LikeCountOnlyChangesCount | components/HomeBlogList.tsx:117-127 | Setting a like count changes only the count, and only on posts with that id. |
| HomeBlogList.FilteredPosts | components/HomeBlogList.tsx:150-155 | Every post is shown, in order. |
| HomeBlogList.PostList.constructor | components/HomeBlogList.tsx:37-38 | The list starts with the given posts and not refreshing. |
| HomeBlogList.PostList.AddPost | components/HomeBlogList.tsx:84-94 | The list becomes `WithNewPost` of it, and its ids stay distinct. |
| HomeBlogList.PostList.UpdatePost | components/HomeBlogList.tsx:97-105 | The list becomes `WithUpdatedPost` of it, and the refreshing flag is kept. |
| HomeBlogList.PostList.RemovePost | components/HomeBlogList.tsx:108-114 | The list becomes `WithoutPost` of it, and the refreshing flag is kept. |
| HomeBlogList.PostList.UpdateLikeCount | components/HomeBlogList.tsx:117-127 | The list becomes `WithLikeCount` of it, and the refreshing flag is kept. |
| HomeBlogList.PostList.RefreshPosts | components/HomeBlogList.tsx:68-81 | With no fetch function nothing happens. A successful fetch replaces the list and a failed one keeps it. A refresh ends not refreshing. |
| ProfileBlogList.FilteredPosts | components/ProfileBlogList.tsx:34-39 | Every post is shown, in order. |
| ProfileBlogList.WithoutCard | components/ProfileBlogList.tsx:57 | The result is a subsequence that keeps exactly the posts with other ids. |
| ProfileBlogList.PostList.constructor | components/ProfileBlogList.tsx:29-30 | The list starts with the given posts and no deletion under way. |
| ProfileBlogList.PostList.HandleDeletePost | components/ProfileBlogList.tsx:41-70 | A declined confirmation changes nothing. Otherwise the delete action runs: on success the post leaves the list and the post table, and on failure both are kept. Either way the id is no longer marked afterwards. |
| ManageCategories.Renamed | components/ManageCategories.tsx:127-131 | Categories with the id take the new name, and the rest are kept. |
| ManageCategories.RenameKeepsIds | components/ManageCategories.tsx:127-131 | A rename keeps every id in place and changes names only under that id. |
| ManageCategories.WithoutCategory | components/ManageCategories.tsx:160 | The result is a subsequence that keeps exactly the categories with other ids. |
| ManageCategories.Manager.constructor | components/ManageCategories.tsx:15-21 | The manager starts with the given list, empty inputs, no edit, no error and nothing loading. |
| ManageCategories.Manager.SetLoading | components/ManageCategories.tsx:67-69 | Only that key's loading flag changes. |
| ManageCategories.Manager.HandleAddCategory | components/ManageCategories.tsx:82-107 | A blank name changes nothing. Otherwise the trimmed name goes to the category route: when created, the server's category is appended and the input cleared; when taken, the error is set and the list kept. "add" stops loading. |
| ManageCategories.Manager.FinishAdd | components/ManageCategories.tsx:93-106 | Either the created category is appended and the input cleared, or the error is set. "add" stops loading. |
| ManageCategories.Manager.StartEdit | components/ManageCategories.tsx:110-113 | The edit takes the category's id and name. |
| ManageCategories.Manager.CancelEdit | components/ManageCategories.tsx:143-146 | The edit is cleared. |
| ManageCategories.Manager.HandleSaveEdit | components/ManageCategories.tsx:116-140 | A blank name, or no category being edited, changes nothing. On success only the edited id takes the returned name and editing ends. On failure the list is kept and the error is set. |
| ManageCategories.Manager.HandleDeleteCategory | components/ManageCategories.tsx:149-166 | A declined confirmation changes nothing. A successful delete removes the category. A failed one keeps the list and sets the error. |
| ContentForm.BlogFormAccepts | components/content-form.tsx:14-24 | The schema accepts exactly: a trimmed title of 1 to 100 characters, 1 to 5 categories and non-empty content. |
| ContentForm.WithCategory | components/content-form.tsx:76-81 | The result holds the old entries, plus the trimmed entry when it is non-empty. It grows by at most one and stays free of duplicates. |
| ContentForm.WithoutCategory | components/content-form.tsx:83-86 | The result is a subsequence that drops exactly the entries equal to the trimmed input. |
| ContentForm.AddThenRemove | components/content-form.tsx:76-86 | Adding a new category and then removing it with the same input gives back the list. |
| ContentForm.Form.constructor | components/content-form.tsx:44-74 | The form starts empty, with no errors and not pending. |
| ContentForm.Form.AddCategory | components/content-form.tsx:76-81 | A non-empty, new trimmed input is appended and the input cleared. Otherwise nothing changes. The list stays free of duplicates. Every other field is kept. |
| ContentForm.Form.RemoveCategory | components/content-form.tsx:83-86 | The list becomes `WithoutCategory` of it and the input is cleared. Every other field is kept. |
| ContentForm.Form.HandleSubmit | components/content-form.tsx:89-107 | It accepts exactly the forms `validateFormData` passes. A refused form sets the three error texts and sends nothing. An accepted one clears them and sends the post to `createBlogAction`. An unknown author raises "NO User Id" before the success notice. A known one gets exactly one post appended. The title, categories, content and input are kept. |
| ContentForm.Form.FinishSubmit | components/content-form.tsx:100-106 | An error result raises an error notice. The success notice follows in every case, and the form stops pending. Every other field is kept. |
| EditContentForm.TitleIssues | components/edit-content-form.tsx:31-34 | At most one issue, at "title". There is none exactly when the title has 1 to 100 characters. |
| EditContentForm.CategoryIssues | components/edit-content-form.tsx:35-36 | At most one issue, at "category". There is none exactly when the category is non-empty. |
| EditContentForm.SummaryIssues | components/edit-content-form.tsx:37-39 | At most one issue, at "summary". There is none exactly when the summary has 10 to 300 characters. |
| EditContentForm.TagsIssues | components/edit-content-form.tsx:40-42 | At most one issue, at "tags". There is none exactly when there are 1 to 10 tags. |
| EditContentForm.ContentIssues | components/edit-content-form.tsx:43-44 | At most one issue, at "content". There is none exactly when the content is non-empty. |
| EditContentForm.BlogFormAccepts | components/edit-content-form.tsx:30-45 | With the title and summary trimmed, the schema accepts exactly when every field is within its bounds. |
| EditContentForm.HasIssueAtSnoc | components/edit-content-form.tsx:372-375 | A field has an issue after appending one exactly when it had one before or the new one is at it. |
| EditContentForm.IsLastIssueSnoc | components/edit-content-form.tsx:372-375 | Appending an issue of another field keeps a field's last message. |
| EditContentForm.ErrorsOf | components/edit-content-form.tsx:370-376 | The error record has a message at a field exactly when the field has an issue, and it is that field's last issue. |
| EditContentForm.FieldErrors | components/edit-content-form.tsx:371-376 | Each recorded message is the message of an issue at its field. |
| EditContentForm.LastIsFirst | components/edit-content-form.tsx:370-376 | For a field with a single issue, its last message is its first. |
| EditContentForm.OneIssuePerFieldJoin | components/edit-content-form.tsx:30-45 | Joining blocks of issues for distinct fields, each with at most one issue, leaves every field at most one issue. |
| EditContentForm.SchemaOneIssuePerField | components/edit-content-form.tsx:30-45 | The schema gives each field at most one issue. |
| EditContentForm.ErrorsShowFirstMessages | components/edit-content-form.tsx:370-376 | On the schema's issues, the last-issue error record shows the same message a first-issue resolver would. |
| EditContentForm.WithTag | components/edit-content-form.tsx:333-339 | The list is kept or has the trimmed, lower-cased tag appended. The tag is in the result exactly when it was there already, or it is non-empty and there were fewer than 10 tags. Tags stay distinct and at most 10. |
| EditContentForm.FullTagListIsKept | components/edit-content-form.tsx:335 | A list of 10 tags takes no more. |
| EditContentForm.WithoutTag | components/edit-content-form.tsx:342-344 | The result is a subsequence that drops exactly the tags equal to the given one. |
| EditContentForm.AddThenRemoveTag | components/edit-content-form.tsx:333-344 | Adding a new tag and removing it gives back the list. |
| EditContentForm.ImageProblem | components/edit-content-form.tsx:287-296 | A type not starting with "image/" is refused first. Then a size over 5 MiB is refused. Otherwise the image is accepted. |
| EditContentForm.LisAt | components/edit-content-form.tsx:143 | `querySelectorAll('li')` under one node collects only `li` elements. |
| EditContentForm.LisIn | components/edit-content-form.tsx:159 | `querySelectorAll('li')` over a list of children collects only `li` elements. |
| EditContentForm.LisInAppend | components/edit-content-form.tsx:143 | The `li` descendants of two lists joined are those of each, joined. |
| EditContentForm.ItemsOf | components/edit-content-form.tsx:141-171 | Each `li` becomes one list item holding a paragraph of its text. |
| EditContentForm.Converted | components/edit-content-form.tsx:70-219 | A text node is dropped exactly when it is blank, and a comment or other node always is. Plain converted text is non-empty and trimmed. |
| EditContentForm.ConvertedAll | components/edit-content-form.tsx:89-98 | The converted children are no more than the children. They are empty exactly when every child is dropped. |
| EditContentForm.ConvertedAllAppend | components/edit-content-form.tsx:220-225 | Converting joined child lists joins their conversions. |
| EditContentForm.Convert | components/edit-content-form.tsx:59-239 | The document always has at least one block, and blank HTML gives the default document. |
| EditContentForm.DroppedNodeKeepsContent | components/edit-content-form.tsx:220-225 | A child that converts to nothing leaves the document unchanged. |
| EditContentForm.DroppedNodeChangesNothing | components/edit-content-form.tsx:220-228 | Removing a body child that converts to nothing does not change the document. |
| EditContentForm.HeadingLevels | components/edit-content-form.tsx:104-123 | h1, h2 and h3 become headings of levels 1, 2 and 3 with their text. |
| EditContentForm.ListsHoldEveryItem | components/edit-content-form.tsx:141-171 | A `ul` or `ol` becomes a list with one item per `li` descendant, nested ones included. |
| EditContentForm.NestedItemsFollowTheirParent | components/edit-content-form.tsx:143 | An `li` nested in another's subtree is listed right after it. |
| EditContentForm.ProcessNode | components/edit-content-form.tsx:70-219 | The recursive walk returns `Converted` of the node. |
| EditContentForm.ProcessChildren | components/edit-content-form.tsx:87-102 | The loop over children returns `ConvertedAll` of them. |
| EditContentForm.ListItems | components/edit-content-form.tsx:143-153 | The `forEach` over the `li` descendants returns `ItemsOf` them. |
| EditContentForm.HtmlToNovelContent | components/edit-content-form.tsx:59-239 | The method's loops compute `Convert` of the HTML and its parsed tree. |
| EditContentForm.OutcomeToast | components/edit-content-form.tsx:403-411 | The toast is the success toast exactly when the action completed or returned an empty (falsy) error. |
| EditContentForm.Form.constructor | components/edit-content-form.tsx:261-272 | The form starts from the post's fields, or empty without a post. An absent summary is empty, and there is a preview only for a non-empty image. There are no errors and it is not submitting. |
| EditContentForm.Form.AddTag | components/edit-content-form.tsx:333-339 | The tags become `WithTag` of them, and the input is cleared exactly when the list changed. Tags stay distinct and at most 10. Every other field is kept. |
| EditContentForm.Form.RemoveTag | components/edit-content-form.tsx:342-344 | The tags become `WithoutTag` of them. Every other field is kept. |
| EditContentForm.Form.HandleImageUpload | components/edit-content-form.tsx:283-324 | No file changes nothing. A refused image raises its toast and keeps the image. A failed upload raises "Failed to upload image" and keeps the image. Otherwise the feature image and the preview become the file's data URL. Every other field is kept. |
| EditContentForm.Form.RemoveImage | components/edit-content-form.tsx:327-330 | The feature image is emptied and the preview cleared. Every other field is kept. |
| EditContentForm.Form.Validate | components/edit-content-form.tsx:355-380 | It returns true exactly when the schema accepts the values, with the errors cleared. Otherwise the error record is `ErrorsOf` the issues. Every other field is kept. |
| EditContentForm.Form.HandleSubmit | components/edit-content-form.tsx:383-415 | Data is sent exactly when the form is valid, with the title and summary trimmed and the post's id. An invalid form raises the fix-errors toast. Otherwise the outcome's toast is raised and submitting ends. The error record is cleared for a valid form and is `ErrorsOf` the issues for an invalid one. Every other field is kept. |
| RegisterForm.UsernameIssues | components/form/registerForm.tsx:22 | Username issues are at "username". |
| RegisterForm.EmailIssues | components/form/registerForm.tsx:24 | Email issues are at "email". |
| RegisterForm.PasswordIssues | components/form/registerForm.tsx:25 | Password issues are at "password". |
| RegisterForm.ConfirmIssues | components/form/registerForm.tsx:26-27 | Confirmation issues are at "confirmPassword". |
| RegisterForm.FormAcceptsAsWritten | components/form/registerForm.tsx:21-27 | As written, the form accepts exactly: a username of 1 to 20 characters, a well-formed email, a password of at least 6 and an equal confirmation. |
| RegisterForm.MismatchShownAtConfirmation | components/form/registerForm.tsx:27 | A differing confirmation shows "Passwords do not match" at the confirmation. |
| RegisterForm.MismatchLeavesPasswordClean | components/form/registerForm.tsx:25-27 | The password field shows nothing for a mismatch. |
| RegisterForm.EveryRegistrationRefused | components/form/registerForm.tsx:49-54 | The body sent has no `type`, so the route's schema refuses every registration. |
| RegisterForm.SixCharacterPasswordPasses | components/form/registerForm.tsx:25 | A 6-character password passes the form, but the route refuses it. |
| RegisterForm.AcceptedFormRegisters | components/form/registerForm.tsx:49-54 | With the check at 8 and the role sent, every accepted form is a registration the route accepts. A short password is reported with the message naming 8. |
| ClientRegisterForm.TypeIssues | apps/client/src/components/form/registerForm.tsx:24-26 | Role issues are at "type". |
| ClientRegisterForm.FormMatchesRoute | apps/client/src/components/form/registerForm.tsx:21-29 | The form accepts exactly the values whose body the route accepts, with an equal confirmation. |
| ClientRegisterForm.UnknownRoleSkipsMatchCheck | apps/client/src/components/form/registerForm.tsx:24-29 | With an unknown role, a mismatch is not reported. |
| ClientRegisterForm.UnknownRoleReported | apps/client/src/components/form/registerForm.tsx:24-26 | An unknown role shows zod's enumeration message. |
| ClientRegisterForm.DefaultsNeedFilling | apps/client/src/components/form/registerForm.tsx:35-41 | The defaults have a valid role. The username shows "Username is required", and the password is reported as required. |
| EditForm.FormMatchesRoute | components/form/editForm.tsx:37-42 | The profile form accepts exactly the values whose body the edit route accepts. |
| EditForm.DefaultsAccepted | components/form/editForm.tsx:63-67 | The prefilled form passes exactly when the stored image is a URL, the designation is allowed and the bio is present with at most 100 characters. |
| EditForm.StoredProfileRefills | components/form/editForm.tsx:76-81 | Storing an accepted form and prefilling again gives back the same values. |
| ImageUpload.Refusal | components/editor/image-upload.ts:48-58 | A type without "image/" is refused for its type. Otherwise a size over 20 MiB is refused for its size. Otherwise there is no refusal. |
| ImageUpload.Validate | components/editor/image-upload.ts:48-58 | A file passes exactly when it is not refused. |
| ImageUpload.TwentyMiBIsTheLimit | components/editor/image-upload.ts:53 | Exactly 20 MiB passes, and one byte more is refused. |
| ImageUpload.TypeCheckedFirst | components/editor/image-upload.ts:49-52 | A non-image is refused for its type whatever its size. |
| ImageUpload.ImageTypesPass | components/editor/image-upload.ts:49-57 | Every type "image/" followed by any subtype passes, at every size up to 20 MiB. |
| ImageUpload.FeatureImageGuardIsStricter | components/editor/image-upload.ts:49-56 | Every image the editing form's feature-image guard accepts, this guard accepts too. The converse fails. |

## Left out

- `editBlogAction` is imported by the editing form but defined nowhere, so its outcome is a parameter of `EditContentForm.Form.HandleSubmit`.
- The like/unlike route (app/api/posts/[id]/like/route.ts) is not part of this model. It deletes the caller's like row on a post when one exists and creates one otherwise.
- There is no separate unpublish action: ReviewBlog's reject applies to a post of any status, so it can also take a published post off the feed.
- ReviewActions.ReviewBlog: takes the `action` form field already parsed. The throw of `JSON.parse` on a malformed field (app/actions/reviewActions.ts:7-9) is not modelled.
- These are parameters or oracles, not code:
  - bcrypt hashing (the `hash` parameter of `UserRoute.RegisterRoute` and `ResetPassword.ResetPasswordRoute`, applied to the submitted password) and comparison;
  - mail delivery (nodemailer);
  - the clock (`Date.now`);
  - `crypto.randomBytes`;
  - the ERP `fetch`;
  - `new URL(...).origin`;
  - `innerHTML` parsing;
  - `FileReader`;
  - the upload `fetch`;
  - `window.confirm`;
  - zod's `.email()` and `.url()` patterns.
- The Google provider, and NextAuth's session and JWT handling.
- The `if (!post)`, `if (!res)` and `if (!user)` branches after Prisma `update`, `delete` and `create` cannot be reached: Prisma throws instead (P2025 becomes `UpdateNotFound` or `DeleteNotFound`). Their messages are therefore absent.
- A malformed JSON body is `None`, and a JSON field of the wrong type is an absent `Option`. The model does not distinguish further.
- `revalidatePath`, and navigation after `redirect`: the redirect target is returned as a value.
- Timers:
  - the toast removal after 5 seconds;
  - `handleError`'s timeout;
  - the HomeBlogList auto-refresh interval.
- Console logging.
- The `onPostsChange` callback and `window.homeBlogListActions`.
- Date formatting (`formatDate`), and the text around `getReadTime`'s minute count.
- String lengths count characters, not UTF-16 code units.
- Text.Lower: ASCII only. JavaScript's `toLowerCase` also maps non-ASCII capitals ("É" to "é"), which the model leaves unchanged.
- Text.Less: compares code points, while the default `sort()` compares UTF-16 code units. A character above U+FFFF therefore sorts after U+E000–U+FFFF here, but before them in JavaScript.
- LikedPostsRoute.LikedPosts and LikeCountRoute.LikeCount: take the user name and the post id as strings. The routes pass `searchParams.get(...)` to Prisma unchecked (app/api/posts/liked/route.ts:6-12, app/api/posts/likecount/route.ts:6-8), so a missing query parameter there becomes `null` and most likely a 500; that case is not modelled.
- Tables are sequences of rows, not an indexed store. Row order is insertion order.
- The `PUT` and `DELETE /api/categories/{id}` routes are not part of this model. Their outcomes are parameters of `ManageCategories.Manager.HandleSaveEdit` and `HandleDeleteCategory`.
- The client app's registration form only logs on submit, so only its schema and defaults are modelled.
- `RegisterBody` has no employee id, because the registration route ignores it.
- ClientRegisterForm.DefaultsNeedFilling: states that "Password is required" is among the password issues, not that it is the first message shown there.
- NewestFirst.Sort: posts with equal `createdAt` come out in reverse storage order (`Sort([a, b]) == [b, a]`), because the database promises no order among them; the model fixes one.

## Findings

| source | as written | input that shows it | evidently intended | confidence | as-written member | corrected member |
|---|---|---|---|---|---|---|
| components/form/registerForm.tsx:49-54 | the body posted to `/api/user` has no `type`, which the route's schema requires | any filled-in form | send `type: "user"` | not executed | RegisterForm.EveryRegistrationRefused | RegisterForm.AcceptedFormRegisters |
| components/form/registerForm.tsx:25 | `min(6)` under the message "at least 8 characters" | the password "abcdef" | `min(8)`, as the message and the route say | not executed | RegisterForm.SixCharacterPasswordPasses | RegisterForm.AcceptedFormRegisters |
| auth.ts:60 | `if (isValid)` tests the `Response` object, which is always truthy | an ERP answer of 401 | test `isValid.ok` | not executed | AuthConfig.RefusedErpLoginSucceeds | AuthConfig.EmployeeIdAuthorizeChecked |
| components/UserBlogList.tsx:250 | `post.published ? 'Published' : 'Draft'` on a non-empty status string | a post with status "reject" or "false" | `post.published === 'true'`, as the badge colour tests | not executed | UserBlogList.EveryPostLooksPublished | UserBlogList.StatusLabel |
