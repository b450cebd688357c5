# Blogicum: post visibility and authorisation, in Dafny

This project models the post-visibility and authorisation policy of the
Blogicum blog, a Django application. The policy has three parts:

- **The visibility filter.** `filtered_post` keeps the posts that are
  published, not dated in the future and in a published category. It gives
  each post a comment count and orders the posts newest first.
  `PublishedRecordingsManager` applies the same three conditions.
- **The read views.** These are the index, the category page, the profile
  page and the post detail page. On the detail page the author of a post
  sees it in any state. Everyone else sees it only if it passes the filter.
- **The mutating views.** These create, edit and delete posts and comments.
  Only the author may edit or delete. Anyone else is redirected to the
  post's detail page. Creating stamps the requester as the author.

Everything is a pure function over immutable records:

- `seqs.dfy`: `Seqs`, `Option`, the first-match lookup that every
  `get_object_or_404(...)` becomes, and the order-preserving filter that
  every `filter(...)` over a table becomes.
- `blog_models.dfy`: `BlogModels`, the records and the `Store` (one sequence
  per table, plus the tables' auto-increment counters). It also holds the
  lookups by key, which return `None` for a 404, and the key constraints
  (`Valid`).
- `ordering.dfy`: `Ordering`, the annotated post and the newest-first sort
  (`order_by('-pub_date')`).
- `managers.dfy`: `Managers`, which models blog/managers.py.
- `visibility_properties.dfy`: `VisibilityProperties`, the lemmas about the
  filter.
- `views.dfy`: `Views`, which models blog/views.py. A read view returns its
  page content, or `None` for the 404 page. A mutating view returns an
  `Outcome`: a `Response` and the store after the request.
- `views_properties.dfy`: `ViewsProperties`, the lemmas about the views.

Modelling decisions:

- **Time.** `timezone.now()` is an integer parameter. For the detail and
  category views it is `now`, the time of the request. `IndexListView`
  builds its queryset as a class attribute, so its `timezone.now()` runs
  once, when the module is loaded: `Views.Index` takes that `loadTime`
  instead (see "## Findings").
- **Requester.** The requester is an `Option<User>`, where `None` is the
  anonymous user. A `User` carries its username as well as its id, because
  the success URL of post creation is the requester's profile.
  `IsAuthor(requester, author)` models the `author == request.user`
  comparison, and it is false for the anonymous user.
- **Categories.** A category is keyed by its slug. A post's `categoryOpt`
  holds that slug.
- **Responses.** The redirects are `RedirectDetail(postId)`, `RedirectIndex`,
  `RedirectProfile(username)` and `RedirectLogin`. A mutating view's
  success URL is its response when the action goes through. `Allow` is the
  result of an access check that lets the request on. `NotFound` is the 404
  page.
- **Tie order.** The database does not fix the order of posts with equal
  publish dates. The model keeps them in input order, using a stable
  insertion sort. The idempotence lemma relies on this choice.
- **New keys.** The database's auto-increment is modelled by two counters
  in the `Store`, `nextPostId` and `nextCommentId`. An insert takes the
  counter's value and advances it, and a delete leaves it alone, so a key
  is never handed out twice. `Valid` requires the counters to lie above
  every key in use and above the post key of every comment.
- **Default manager.** `Post.objects`, and the default manager that
  `get_object` and `super().get_object()` use, are the whole posts table,
  unfiltered. blog/models.py, which attaches the managers, is not part of
  this model. If `PublishedRecordingsManager` were Post's default manager,
  the author's access to an unpublished post on the detail page would not
  exist.

Two orderings of checks in the source are pinned down:

- `PostUpdateView` puts `LoginRequiredMixin` first. That mixin's failure
  path calls `handle_no_permission`, and the view overrides it to redirect
  to the post. So an anonymous editor is sent to the post, not to the login
  page: editing is gated exactly like deleting (`PostUpdateGateIsDeleteGate`).
  `PostDeleteView` has no login mixin at all.
- `CommentUpdateView` and `CommentDeleteView` check ownership in their own
  `dispatch`, before `LoginRequiredMixin` runs. So the login redirect can
  never happen there. A refused requester is sent to the post named in the
  URL, not to the comment's post.

## Model

| member | source | states |
|---|---|---|
| `BlogModels.FindPost` | blogicum/blog/views.py:105 | The lookup by key finds a post with that key from the table, and finds none exactly when no post has the key |
| `BlogModels.FindPostUnique` | blogicum/blog/views.py:211-212 | Under unique primary keys, the lookup by a post's key returns that very post |
| `BlogModels.FindComment` | blogicum/blog/views.py:120-123 | The lookup by key finds a comment with that key, and finds none exactly when no comment has the key: the comment views' 404 |
| `BlogModels.FindCategory` | blogicum/blog/views.py:189-190 | The lookup by slug finds a category with that slug, and finds none exactly when no category has it |
| `BlogModels.FindUserByName` | blogicum/blog/views.py:164-165 | The lookup by username finds a user with that name, and finds none exactly when no user has it: the profile page's 404 |
| `Ordering.SortNewestFirst` | blogicum/blog/managers.py:13-15 | The result is in newest-first order of `pub_date` and is a rearrangement of the input: the same multiset of annotated posts and of posts |
| `Ordering.Insert` | blogicum/blog/managers.py:13-15 | Inserting into a newest-first sequence keeps it newest first and adds exactly that one element |
| `Ordering.SortKeepsSorted` | blogicum/blog/managers.py:13-15 | Ordering a sequence that is already newest first returns it unchanged |
| `Seqs.Filter` | blogicum/blog/managers.py:7-11 | A filter keeps each selected row as often as the table holds it and drops every other row |
| `Managers.CategoryPublished` | blogicum/blog/managers.py:10 | With unique slugs, the category condition holds exactly when some category row with the post's slug is published; a post with no category fails it |
| `Managers.IsVisible` | blogicum/blog/managers.py:8-10 | With unique slugs, a post is visible exactly when it is published, dated at or before `now`, and some category row with its slug is published |
| `Managers.SelectVisible` | blogicum/blog/managers.py:7-11 | A post is selected as often as the base holds it when it is published, dated at or before `now` and in a published category; otherwise it is not selected |
| `Managers.CountComments` | blogicum/blog/managers.py:11-13 | A post's comment count is the number of rows of the comments table that point at it |
| `Managers.Annotate` | blogicum/blog/managers.py:11-13 | Annotation keeps the posts in order and gives each the number of comment rows that point at it |
| `Managers.SortedAnnotationCounts` | blogicum/blog/managers.py:11-15 | Ordering an annotated listing keeps every post's own comment count |
| `Managers.FilteredPost` | blogicum/blog/managers.py:6-17 | Every listed post is published, has `pub_date <= now` and has a published category. Each carries its comment count. The list holds each visible base post as often as the base does and nothing else. It is newest first |
| `Managers.PublishedRecordings` | blogicum/blog/managers.py:20-30 | The manager returns a post exactly when it is in the table, published, in a published category and dated at or before `now`. It keeps every returned post's multiplicity |
| `VisibilityProperties.FilteredPostMembership` | blogicum/blog/managers.py:7-11 | A post is listed if and only if it is in the base and publicly visible |
| `VisibilityProperties.FilteredPostIncludesNow` | blogicum/blog/managers.py:9 | The date test is inclusive: a published post in a published category dated exactly `now` is listed |
| `VisibilityProperties.FilteredPostExcludesFuture` | blogicum/blog/managers.py:9 | A post dated after `now` is never listed |
| `VisibilityProperties.FilteredPostNoDuplicates` | blogicum/blog/managers.py:6-17 | Over a base with unique keys, the listing has unique keys, so it is a duplicate-free rearrangement of the visible subset |
| `VisibilityProperties.CountCommentsIsCardinality` | blogicum/blog/managers.py:11-13 | Over a comments table with unique keys, a post's comment count is the size of the set of comments whose post is that post |
| `VisibilityProperties.FilteredPostIdempotent` | blogicum/blog/managers.py:6-17 | Filtering an already filtered listing returns it unchanged |
| `VisibilityProperties.ManagerMatchesFilteredPost` | blogicum/blog/managers.py:20-30 | The manager and `filtered_post` over the same table select the same multiset, and so the same set, of posts |
| `Views.Index` | blogicum/blog/views.py:227-235 | As written: the index lists exactly the posts of the current table that were visible at the module's load time, newest first, each with its current comment count |
| `Views.IndexAtRequest` | blogicum/blog/views.py:223 | `filtered_post(Post.objects)` at request time lists exactly the posts visible now, newest first, each with its comment count |
| `Views.PostDetail` | blogicum/blog/views.py:211-224 | A missing key gives the 404 page. A returned post has the requested key, and either the requester is its author or it is publicly visible |
| `Views.InCategory` | blogicum/blog/views.py:191 | A category's posts are exactly the posts whose category is that slug |
| `Views.CategoryListing` | blogicum/blog/views.py:187-192 | A page is shown only when a published category has the slug. The page lists exactly the visible posts of that category, newest first, with their comment counts. An unknown slug gives the 404 page |
| `Views.AuthoredBy` | blogicum/blog/views.py:166 | A profile's posts are exactly the posts whose author is that user |
| `Views.ProfileListing` | blogicum/blog/views.py:163-167 | An unknown username, and only that, gives the 404 page. Otherwise the page lists every post of that user, with no visibility filter, newest first and with comment counts |
| `Views.PostNoPermission` | blogicum/blog/views.py:92-94 | A refusal redirects to the detail page of the requested post, or gives the 404 page if it does not exist |
| `Views.PostOwnerCheck` | blogicum/blog/views.py:88-94 | A missing post gives the 404 page. The request goes on only for an author of a post with that key, never for the anonymous user. Every other requester is redirected to the post's detail page |
| `Views.PostDeleteGate` | blogicum/blog/views.py:57-64 | A missing post gives the 404 page. Deleting goes on only for the post's author, never for the anonymous user; any other requester is redirected to the post |
| `Views.PostUpdateGate` | blogicum/blog/views.py:72-95 | A missing post gives the 404 page. Editing goes on only for the post's author, never for the anonymous user. Any other requester is redirected to the post, never to the login page |
| `Views.CommentOwnerCheck` | blogicum/blog/views.py:119-128 | A missing comment gives the 404 page. The request goes on only for the comment's author, never for the anonymous user. Anyone else is redirected to the detail page of the post named in the URL |
| `Views.LoginRequired` | blogicum/blog/views.py:110 | `LoginRequiredMixin` with its default refusal: the anonymous user goes to the login page, and a signed-in user goes on to the next step |
| `Views.CreatePost` | blogicum/blog/views.py:27-45 | The anonymous user goes to the login page with nothing stored. Otherwise exactly one post is appended, with the requester as author, the form's fields and a key the counter had not handed out, which in a valid store no post and no comment refers to; the response is the requester's profile |
| `Views.NoCommentsOnFreshKey` | blogicum/blog/views.py:35-37 | No comment points at the key the next new post receives |
| `Views.RemovePost` | blogicum/blog/views.py:48-69 | Deleting by key keeps exactly the posts whose key differs |
| `Views.DeletePost` | blogicum/blog/views.py:48-69 | A missing post, and only that, gives the 404 page. Only the author's request removes the post and goes to the index. Any refusal keeps the store unchanged and redirects to the post. No other post is touched and no counter moves |
| `Views.ApplyPostForm` | blogicum/blog/forms.py:21-31 | Saving the form changes only the post with the key: its fields become the form's, and its key and author stay |
| `Views.UpdatePost` | blogicum/blog/views.py:72-95 | A missing post, and only that, gives the 404 page; otherwise the response is the post's detail page. Only the author's request changes the store, never the anonymous user's. Every post keeps its key and author, and every other post is unchanged |
| `Views.CreateComment` | blogicum/blog/views.py:98-107 | The anonymous user goes to the login page. A missing post gives the 404 page. For a signed-in requester and an existing post, one comment is appended, with a fresh key, the requester as author, the URL's post and the form's text, and the response is that post's detail page |
| `Views.DeleteComment` | blogicum/blog/views.py:110-132 | A missing comment, and only that, gives the 404 page; otherwise the response is the URL's post. The store changes only for the comment's author, and then the comment is gone. No other comment is touched |
| `Views.RemoveComment` | blogicum/blog/views.py:110-132 | Deleting by key keeps exactly the comments whose key differs |
| `Views.ApplyCommentForm` | blogicum/blog/forms.py:34-37 | Saving the form changes only the text of the comment with the key. Every comment keeps its key, post and author |
| `Views.UpdateComment` | blogicum/blog/views.py:140-150 | A missing comment, and only that, gives the 404 page; otherwise the response is the URL's post. The store changes only for the comment's author, and then the comment holds the form's text. No comment moves to another post or author |
| `ViewsProperties.IndexLagsBehindDetail` | blogicum/blog/views.py:235 | A post that became due after the module was loaded is shown on its detail page but missing from the index |
| `ViewsProperties.IndexLagExample` | blogicum/blog/views.py:235 | A concrete store, load time and request time where the detail page shows a post the index omits |
| `ViewsProperties.IndexAtRequestMatchesDetail` | blogicum/blog/views.py:222-224 | Evaluated per request, the index shows a post exactly when the anonymous user may open its detail page |
| `ViewsProperties.PostDetailOwnerBypass` | blogicum/blog/views.py:213-221 | A post's author gets the post whatever its publication flag, date or category |
| `ViewsProperties.PostDetailPublic` | blogicum/blog/views.py:222-224 | Anyone else, the anonymous user included, gets the post exactly when it is visible, and the 404 page otherwise |
| `ViewsProperties.PostOwnerCheckDecides` | blogicum/blog/views.py:88-94 | For an existing post, the request goes on if and only if the requester is its author. Otherwise the response is a redirect to the post |
| `ViewsProperties.PostUpdateGateIsDeleteGate` | blogicum/blog/views.py:72-95 | The edit view's login mixin is unobservable: the edit view decides every request exactly as the delete view does |
| `ViewsProperties.DeletePostRefused` | blogicum/blog/views.py:57-64 | A non-author, anonymous or not, who deletes a post is redirected to it, and the store is unchanged |
| `ViewsProperties.DeletePostByAuthor` | blogicum/blog/views.py:66-69 | The author's delete removes the post and redirects to the index |
| `ViewsProperties.UpdatePostDecides` | blogicum/blog/views.py:82-95 | Editing always redirects to the post. Only the author's edit stores the form's fields, keeping the post's key and author |
| `ViewsProperties.CommentOwnerCheckDecides` | blogicum/blog/views.py:146-150 | For an existing comment, the request goes on if and only if the requester is its author. Anyone else goes to the URL's post, whichever post the comment is on |
| `ViewsProperties.DeleteCommentByAuthor` | blogicum/blog/views.py:119-132 | The comment's author deletes it: the comment is gone, every other comment stays, and the response is the URL's post |
| `ViewsProperties.UpdateCommentByAuthor` | blogicum/blog/views.py:140-150 | The comment's author edits it: the comment now holds the form's text with its key, post and author unchanged, and the response is the URL's post |
| `ViewsProperties.CommentChangeRefused` | blogicum/blog/views.py:146-150 | Anyone else, anonymous or not, who deletes or edits a comment is sent to the URL's post and the store is unchanged |
| `ViewsProperties.ProfileListsEveryPost` | blogicum/blog/views.py:163-167 | Every post of a user, draft or scheduled, appears on that user's profile page |
| `ViewsProperties.CategoryListingNotFound` | blogicum/blog/views.py:189-190 | With unique slugs, the category page is the 404 page exactly when no published category has the slug |
| `ViewsProperties.CreatePostKeepsValid` | blogicum/blog/views.py:35-37 | Creating a post keeps every key of the store unique and the counters ahead |
| `ViewsProperties.DeletePostKeepsValid` | blogicum/blog/views.py:48-69 | Deleting a post keeps every key of the store unique and the counters ahead |
| `ViewsProperties.DeletedKeyNeverReused` | blogicum/blog/views.py:35-37 | A post created after a delete never receives the deleted post's key, and no comment points at it |
| `ViewsProperties.UpdatePostKeepsValid` | blogicum/blog/views.py:72-95 | Editing a post keeps every key of the store unique and the counters ahead |
| `ViewsProperties.CreateCommentKeepsValid` | blogicum/blog/views.py:104-107 | Creating a comment keeps every key of the store unique and the counters ahead |
| `ViewsProperties.DeleteCommentKeepsValid` | blogicum/blog/views.py:110-132 | Deleting a comment keeps every key of the store unique and the counters ahead |
| `ViewsProperties.UpdateCommentKeepsValid` | blogicum/blog/views.py:140-150 | Editing a comment keeps every key of the store unique and the counters ahead |

## Left out

- Database mechanics: querysets are lazy objects, and `select_related`
  prefetches rows. Tables are modelled as sequences, so neither has any
  observable effect here.
- Pagination: `PAGINATED_BY` is defined in blogicum/constants.py, which is
  not part of this model.
- Templates, template names and the context that views add for rendering
  (`get_context_data`).
- The GET requests that render a form, and form validation. The forms only
  list fields and leave checking to Django. The mutating views are
  modelled for the submission of a valid form.
- Post fields with no bearing on the policy: title, text, image, location
  and the created timestamp.
- Cascading deletion of a post's comments: blog/models.py, which declares the
  foreign keys and their `on_delete` rule, is not part of this model. A
  deleted post's comments stay in the table. Because keys are never reused
  they never attach to a later post
  (`ViewsProperties.DeletedKeyNeverReused`). But the comment views still
  find such a comment by its key and let its author edit or delete it,
  where a cascade would have removed it and given the 404 page.
- `UserCreateView` and `UserProfileUpdateView`: they delegate to Django's
  authentication, sessions and `login`.
- blogicum/urls.py and blog/admin.py: routing and admin registration, with
  no behaviour of their own. Of blog/forms.py only the fields of
  `PostForm` and `CreateCommentForm` that bear on the policy are kept. The one
  success-URL helper in blog/mixins.py (lines 15-17) is folded into the
  comment views.
- Database transactions and concurrency between requests.
- Views.PostDetail: the converse directions hold only when post keys are
  unique. They are stated in `ViewsProperties.PostDetailOwnerBypass` and
  `ViewsProperties.PostDetailPublic` rather than in the function's own
  contract.
- Views.CategoryListing: the "404 exactly when" direction holds only
  when slugs are unique. It is stated in
  `ViewsProperties.CategoryListingNotFound`.
- Views.PostOwnerCheck, Views.PostDeleteGate, Views.PostUpdateGate,
  Views.CommentOwnerCheck: the "the author is let through" direction holds
  only when keys are unique. It is stated in
  `ViewsProperties.PostOwnerCheckDecides` (which the two post gates reduce
  to, by their bodies and `ViewsProperties.PostUpdateGateIsDeleteGate`) and
  `ViewsProperties.CommentOwnerCheckDecides`.
- Views.DeleteComment, Views.UpdateComment, Views.DeletePost,
  Views.UpdatePost: that the author's request takes effect holds only when
  keys are unique. It is stated in `ViewsProperties.DeleteCommentByAuthor`,
  `ViewsProperties.UpdateCommentByAuthor`,
  `ViewsProperties.DeletePostByAuthor` and
  `ViewsProperties.UpdatePostDecides`.

## Findings

| source | as written | input that shows it | evidently intended | confidence | as-written member | corrected member |
|---|---|---|---|---|---|---|
| blogicum/blog/views.py:235 | `queryset = filtered_post(Post.objects)` is a class attribute, so `timezone.now()` in blogicum/blog/managers.py:9 runs once, when the module is loaded, and every request reuses that cutoff | module loaded at time 0; a published post in a published category dated 5; an anonymous request at time 10: the detail page shows the post and the index omits it | the index, like the detail and category pages, filters at request time | high; not executed | `Views.Index` (`ViewsProperties.IndexLagsBehindDetail`, `ViewsProperties.IndexLagExample`) | `Views.IndexAtRequest` (`ViewsProperties.IndexAtRequestMatchesDetail`) |
