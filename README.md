# Yatube blog store — a Dafny model of the posts views

Yatube is a small blogging site: users write posts, optionally file them under
a group, comment on posts and follow other authors. All of its logic lives in
the view functions of `yatube/posts/views.py`; everything else is framework
configuration. This project models those views over an in-memory store:

- `wrappers.dfy` — `Option` and `Result`.
- `paging.dfy` (module `Paging`) — the paginator every feed goes through: ten
  posts per page, the page number read from the `page` parameter.
- `tables.dfy` (module `Tables`) — the rows (`Post`, `Comment`, `Follow`), the
  requesting user (`Viewer`: anonymous or a member), the error taxonomy, the
  queries the views run (`Filter`, author/group/comment feeds, the following
  feed, `.get` on the Follow table), the Follow-table transitions and the
  lemmas about them.
- `views.dfy` (module `Views`) — class `Blog`, the store: the Post, Comment and
  Follow tables as sequences that the write views reassign, plus the
  registered usernames and group slugs. Read-only views are functions that
  read the store; `follow_index` (which builds its author list in a loop)
  and the write views are methods.

Modelling choices:

- A user is identified by their username (usernames are unique in the user
  table), a group by its slug. `get_object_or_404` becomes a `NotFound` error.
- `login_required` becomes an `AuthRequired` error for an anonymous viewer,
  returned before anything else is looked up and with no change to the store.
- The Follow table is a sequence of rows, not a set, so that "at most one row
  per (user, author) pair" (the `unique_together` constraint of migration
  0009) is an invariant the views must keep; `Blog.Edges()` is its set view.
- Form validity is an input boolean, and a valid `PostForm` is given by its
  cleaned fields (text, group, image).
- Primary keys of new posts come from a counter `nextId` standing for the
  database's auto-increment.
- `post_edit` and `add_comment` look the post up by primary key only; the
  username in their address is not consulted, as in the code.
- `profile_unfollow` calls `.get` before its own existence check, so an absent
  edge (including a user unfollowing themself) raises `DoesNotExist`, which is
  a server error, not a redirect. The model keeps that behaviour (error
  `DoesNotExist`, store unchanged) rather than a silent no-op.
- `profile` filters the Follow table by `request.user` with nothing guarding
  the anonymous case. For an anonymous visitor that value is not a user row,
  and Django 2.2 (the version the migrations were generated with) raises a
  `TypeError` in that query, so the visitor gets the 500 page. The model
  follows the code (`Views.Blog.Profile` returns `ServerError`); the page the
  tests expect a guest to see, with the follow flag unset, is
  `Views.Blog.GuestSafeProfile` (see "## Findings"). This rests on Django's
  library code, which is not part of this model.
- Django's `Paginator.get_page` is not part of this repository. Its policy is
  modelled as an assumption in `Paging.PageNumber`: num_pages is
  max(1, ceil(n/10)); an absent or non-integer page number gives page 1; an
  integer below 1 or beyond num_pages gives the last page.

## Model

| member | source | states |
|---|---|---|
| `Paging.NumPages` | yatube/posts/views.py:15 | the page count is at least 1 and is the least number of ten-item pages that holds all items; an empty list has exactly one page |
| `Paging.Slice` | yatube/posts/views.py:15-17 | page k holds exactly the items at positions (k-1)*10 up to min(k*10, n), in order |
| `Paging.PageNumber` | yatube/posts/views.py:16-17 | the page served lies in 1..num_pages: the requested one when in range, page 1 when absent, the last page otherwise (Django's policy, assumed) |
| `Paging.GetPage` | yatube/posts/views.py:14-18 | the page returned is the slice for the settled page number and holds only items of the list |
| `Paging.UptoIsPrefix` | yatube/posts/views.py:14-18 | pages 1..k laid end to end are exactly the first min(10k, n) items |
| `Paging.PagesCover` | yatube/posts/views.py:14-18 | all pages together give back the whole list in order |
| `Paging.ConsecutivePages` | yatube/posts/views.py:14-18 | every page but the last is full, and pages k and k+1 are adjacent slices |
| `Paging.PagesDisjoint` | yatube/posts/views.py:14-18 | two different pages of a list without repeats share no item |
| `Paging.FifteenItems` | yatube/posts/tests/test_views.py:193-201 | fifteen posts make two pages: ten on the first, five on the second, which is the last |
| `Tables.Filter` | yatube/posts/views.py:34 | a filtered queryset holds exactly the items that pass the condition, no more than the input |
| `Tables.FilterAppend` | yatube/posts/views.py:34 | filtering keeps store order: the filter of a concatenation is the concatenation of the filters |
| `Tables.AuthorPosts` | yatube/posts/views.py:69 | the author's feed holds exactly the stored posts by that author |
| `Tables.GroupFeed` | yatube/posts/views.py:61 | the group's feed holds exactly the stored posts filed under that group |
| `Tables.PostComments` | yatube/posts/views.py:87 | the post's comments are exactly the stored comments on that post |
| `Tables.NewPostInFeeds` | yatube/posts/views.py:106-109 | a new post is appended to its author's feed, whose count grows by one, and leaves other authors' feeds unchanged |
| `Tables.EmptyGroup` | yatube/posts/tests/test_views.py:148-153 | a group nobody posted in has an empty feed |
| `Tables.FindPost` | yatube/posts/views.py:121 | lookup by primary key finds a post with that key, fails exactly when no post has it, and with distinct keys the post found is the only one |
| `Tables.Revise` | yatube/posts/views.py:124-128 | an edit replaces text, group and image with the form's and keeps the key and the author, so who may edit the post never changes |
| `Tables.CanEdit` | yatube/posts/views.py:122 | a viewer may edit a post exactly when signed in as its author; an anonymous viewer never may |
| `Tables.OneEditor` | yatube/posts/views.py:122 | a post has exactly one possible editor: two viewers who may both edit it are the same |
| `Tables.UniqueCount` | yatube/posts/migrations/0009_auto_20210802_1058.py:15-17 | a table without repeated rows holds each (user, author) row once or not at all |
| `Tables.AfterFollow` | yatube/posts/views.py:42-45 | the table after a follow holds the old rows, in place, plus the (user, author) row when the two differ; it grows by one exactly when they differ and the row was absent |
| `Tables.SelfFollow` | yatube/posts/views.py:42-45 | following oneself never changes the Follow table |
| `Tables.FollowAdds` | yatube/posts/views.py:42-45 | a first follow of another user adds exactly that row and the table grows by one |
| `Tables.FollowKeepsValid` | yatube/posts/views.py:42-45 | following keeps the table free of repeated rows and of self-follows |
| `Tables.FollowTwice` | yatube/posts/views.py:42-45 | following the same author twice equals following once and leaves exactly one row for the pair |
| `Tables.GetRow` | yatube/posts/views.py:52 | `.get` returns the position of the only row equal to the edge; DoesNotExist exactly when there is none; MultipleObjectsReturned only when two rows match |
| `Tables.GetUnique` | yatube/posts/views.py:52 | on a table without repeated rows `.get` succeeds exactly when the row exists and never reports MultipleObjectsReturned |
| `Tables.Without` | yatube/posts/views.py:55 | the table without an edge holds every other row and not that one |
| `Tables.DeleteRow` | yatube/posts/views.py:52-55 | deleting the row `.get` found is the table without that edge, one row shorter |
| `Tables.FollowThenUnfollow` | yatube/posts/views.py:39-56 | unfollowing right after a first follow gives back the table as it was |
| `Tables.DeleteKeepsValid` | yatube/posts/views.py:55 | deleting a row keeps the table free of repeated rows and of self-follows |
| `Tables.Authors` | yatube/posts/views.py:31-33 | the collected author list has one entry per follow row, the row's author, in order |
| `Tables.FollowedBy` | yatube/posts/views.py:30-33 | the authors collected for a user are exactly those the user has a follow row for |
| `Tables.FollowFeed` | yatube/posts/views.py:34 | the following feed holds exactly the stored posts whose author the viewer follows |
| `Tables.NewPostInFollowFeed` | yatube/posts/views.py:29-34 | a new post appears at the end of a follower's feed exactly when its author is followed, and no other feed changes |
| `Views.Blog.Index` | yatube/posts/views.py:22-25 | the home page is the slice of all posts for the page number the paginator settles on, with the page count of the whole table |
| `Views.Blog.GroupPosts` | yatube/posts/views.py:59-64 | NotFound exactly for an unknown slug; otherwise the page holds only posts of that group and is empty for a group without posts |
| `Views.Blog.Profile` | yatube/posts/views.py:67-81 | as written: NotFound exactly for an unknown username, ServerError exactly for an anonymous visitor of a known one, and for a member the page of `GuestSafeProfile` |
| `Views.Blog.GuestSafeProfile` | yatube/posts/views.py:67-81 | NotFound exactly for an unknown username; otherwise the page holds only the author's posts, count is their number, and the flag is true exactly when the viewer is a member with an edge to the author (never for oneself, never for a guest) |
| `Views.GuestProfileFails` | yatube/posts/tests/test_urls.py:46 | for every known username, an anonymous visitor gets ServerError from the code as written, where the expected page exists with the flag unset |
| `Views.Blog.PostView` | yatube/posts/views.py:84-96 | NotFound exactly when no post has both that key and that author; otherwise that post, its comments in store order with their multiplicity (exactly the post's comment list) and the author's post count |
| `Views.Blog.FollowIndex` | yatube/posts/views.py:28-36 | AuthRequired exactly for an anonymous viewer; otherwise the requested page of the following feed, whose posts all have an author the viewer follows |
| `Views.Blog.ProfileFollow` | yatube/posts/views.py:39-46 | anonymous: AuthRequired, unknown user: NotFound, both with no change; otherwise the edge set gains the (viewer, author) edge unless viewer and author coincide, and the invariants hold |
| `Views.Blog.ProfileUnfollow` | yatube/posts/views.py:49-56 | anonymous: AuthRequired, unknown user: NotFound, absent edge or self: DoesNotExist, each with no change; otherwise exactly that edge is removed, one row fewer, all others kept |
| `Views.Blog.NewPost` | yatube/posts/views.py:99-113 | anonymous: AuthRequired, invalid form: FormInvalid, no change; otherwise exactly one post is appended, authored by the viewer under a fresh key, and the viewer's post count grows by one |
| `Views.Blog.PostEdit` | yatube/posts/views.py:116-132 | NotFound exactly for an unknown key, NotOwner exactly when the post is someone else's, FormInvalid exactly for the owner with an invalid form; only the owner with a valid form changes the post, and only its form fields; every other outcome leaves all posts unchanged |
| `Views.Blog.AddComment` | yatube/posts/views.py:135-146 | succeeds exactly for a member, a stored post and a valid form; then exactly one comment is appended, on that post and by the viewer, and it ends that post's comment list |

## Left out

- `index` is cached for 20 seconds by `cache_page`; the model has no clock, so the cache and its staleness are not modelled and the home page is always computed from the table.
- Feed ordering: posts come newest first through model metadata that is not part of this model; every feed keeps the order the posts were stored in.
- Rendering, templates, redirect targets, status codes, `page_not_found` and `server_error`: presentation only. A view that ends in its success redirect returns `Ok(())`; the login redirect is `AuthRequired`, a non-owner's redirect to the post is `NotOwner`, a re-rendered invalid form is `FormInvalid`, and a 404 or 500 page is the corresponding `Error`.
- `post_view`'s empty comment form and `comment_button` flag: presentation only.
- Form validation, image upload and `csrf_exempt`: form validity is an input boolean and a valid form is given by its cleaned fields.
- The login redirect's `next` parameter and sessions: anonymous access is the `AuthRequired` error with no change.
- Parsing of the `page` query parameter into an integer: the model takes it already parsed (`None` when absent or not an integer).
- Referential integrity of users and groups (that a post's author, a follow row's endpoints and a post's group exist) is owned by the database and is not an invariant here; the comment-to-post link is.

## Findings

| source | as written | input that shows it | evidently intended | confidence | as-written member | corrected member |
|---|---|---|---|---|---|---|
| yatube/posts/views.py:73 | the follow test filters by `request.user` with no anonymous case; under Django 2.2 the query raises `TypeError` for an anonymous user | an anonymous GET of `/<username>/` for an existing user | the profile page with `following` false, as yatube/posts/tests/test_urls.py:46 expects status 200 for a guest | medium, not executed (depends on Django 2.2's query code) | `Views.Blog.Profile`, with `Views.GuestProfileFails` | `Views.Blog.GuestSafeProfile` |
