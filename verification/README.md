# Yatube posts views as a blog state machine

Yatube is a small blogging site. Users write posts, which may be tagged with
a group. Users comment on posts, follow other authors and browse
paginated feeds. This project models the request handlers of the `posts`
application (`yatube/posts/views.py`) as pure functions over an immutable
store, and proves what those handlers promise.

The store (`Blog.Blog`) holds:

- the users and the group slugs;
- the posts, newest first, as every listing shows them;
- the comments;
- the set of directed follow edges `(follower, author)`;
- the next primary key the database will hand out.

Each handler becomes one function in module `Views`:

- A handler that only reads returns a `Response`: a rendered page's context, a redirect, not-found, or a server error.
- A handler that may write returns a `Step`: the store after the request, together with the response.

Files and modules:

- `seqs.dfy`: `Wrappers` (Option) and `Seqs` (order-preserving `Filter`, the model of a queryset `filter`).
- `paging.dfy`: `Paging`, Django's `Paginator.get_page` with `POSTS_PER_PAGE = 10`.
- `blog.dfy`: `Blog`, the data model, the store invariant `Valid`, the feed queries and the key lookup.
- `views.dfy`: `Views`, one function per handler.
- `properties.dfy`: `Properties`, the lemmas that relate the handlers to each other.

Framework behaviour the handlers rely on is encoded as explicit assumptions:

- `login_required` redirects an anonymous viewer to the login page.
- `get_object_or_404` yields `NotFound`.
- `Model.objects.get` on a missing row raises; that exception is unhandled, so the outcome is `ServerError`.
- A handler that returns nothing also gives `ServerError`, because Django raises on a view returning `None`.
- `get_or_create` on the unique follow pair is set insertion.
- `Paginator.get_page` serves page k as the slice `[10(k-1), min(10k, n))` and always has at least one page. A missing or non-integer page number gives page 1. A number below 1 or above the last page gives the last page.
- Out-of-range page numbers are therefore not clamped to the nearest valid page. Page 0 and negative pages give the last page, not page 1, and the model follows `get_page` here.

Three behaviours are modelled exactly as the code does them, although they look asymmetric:

- `profile_unfollow` of an edge that does not exist is a server error, not a no-op. Following, by contrast, is idempotent.
- `profile_follow` of an unknown username is a server error rather than not-found, because it uses `.get()` and not `get_object_or_404`.
- `add_comment` with an invalid form falls off the end of the handler, which gives a server error.

## Model

| member | source | states |
|---|---|---|
| Paging.NumPages | yatube/posts/views.py:13 | the page count is the least number of 10-post pages holding every record, and 1 for an empty listing |
| Paging.ResolvePage | yatube/posts/views.py:14-15 | the page number `get_page` settles on always lies in 1..numPages; an in-range number is kept, and a missing or non-integer one gives page 1 |
| Paging.GetPage | yatube/posts/views.py:13-15 | the page served (numbered by `ResolvePage`) is clamped into 1..numPages; an in-range number is kept, a missing or non-integer one gives page 1, an out-of-range one gives the last page; at most 10 items; every page but the last is full; item i is record 10(k-1)+i of the listing |
| Paging.ResolveStable | yatube/posts/views.py:14-15 | asking again for the page number that was served serves the same page |
| Paging.FirstAndSecondPage | yatube/posts/tests/test_views.py:236-268 | with more than 10 records, page 1 (also when no page is given) holds 10 and page 2 holds min(n-10, 10) |
| Paging.EveryItemOnItsPage | yatube/posts/views.py:13-15 | record i is served as item i mod 10 of page i div 10 + 1, and that page exists |
| Paging.OnSomePage | yatube/posts/views.py:13-15 | every record of a listing is served on some page |
| Paging.PageIsSlice | yatube/posts/views.py:15 | an in-range page is exactly the slice of the listing from 10(n-1) up to min(10n, count) |
| Paging.PagesArePrefix | yatube/posts/views.py:13-15 | pages 1..n laid end to end are the first min(10n, count) records |
| Paging.PagesCoverListing | yatube/posts/views.py:13-15 | all pages laid end to end are exactly the listing: pagination loses, repeats and reorders nothing |
| Seqs.Filter | yatube/posts/views.py:39 | a queryset filter keeps exactly the records satisfying the condition, and no more records than it was given |
| Seqs.FilterKeepsAll | yatube/posts/views.py:12 | a filter every record satisfies returns the whole sequence unchanged |
| Seqs.FilterNone | yatube/posts/views.py:55 | a filter no record satisfies returns nothing |
| Seqs.FilterAppend | yatube/posts/views.py:55 | filtering distributes over appending records |
| Blog.Select | yatube/posts/views.py:115 | a feed query returns exactly the posts of the store that match it |
| Blog.FollowedBy | yatube/posts/views.py:113-114 | the followed-author ids are exactly the authors of the viewer's follow edges |
| Blog.EdgesOf | yatube/posts/tests/test_views.py:188 | the follower's edges are exactly the edges whose follower is that user |
| Blog.IndexOf | yatube/posts/views.py:53 | the primary-key lookup finds a post carrying the key, or reports that none does |
| Blog.IndexOfDistinct | yatube/posts/views.py:53 | with distinct keys, the lookup finds the one post carrying the key |
| Blog.CommentsOn | yatube/posts/views.py:55 | a post's comments are exactly the stored comments attached to it |
| Views.Listing | yatube/posts/views.py:24-27 | a listing page holds at most 10 posts, each from the store and matching the feed's query |
| Views.Index | yatube/posts/views.py:11-19 | the global feed always renders, at most 10 posts per page, all from the store |
| Views.GroupPosts | yatube/posts/views.py:22-32 | an unknown slug is not-found; otherwise the page shows only posts of that group, at most 10 |
| Views.Profile | yatube/posts/views.py:35-49 | an unknown username is not-found; otherwise the page shows only that author's posts, at most 10, and `following` holds exactly when a logged-in viewer has the edge to the author |
| Views.PostDetail | yatube/posts/views.py:52-63 | an unknown id is not-found; otherwise the post carrying the id is shown, with a post count between 1 and the number of posts, and exactly the comments attached to it |
| Views.PostCreate | yatube/posts/views.py:66-75 | anonymous goes to login; an invalid form re-renders with nothing changed; a valid one prepends a post authored by the viewer with the submitted text and group, takes the next key, leaves every other post and every other part of the store unchanged, and redirects to the viewer's profile |
| Views.PostEdit | yatube/posts/views.py:78-95 | an invalid or unbound form never changes the store; for the post's author (keys distinct) an invalid form re-renders the edit form and a valid one rewrites exactly that post's text and group and redirects to its detail page; no other post, and no author or key, ever changes; a non-author is redirected to the detail page with the store unchanged; an unknown id is not-found |
| Views.AddComment | yatube/posts/views.py:98-107 | a valid comment on an existing post is appended and redirects to the detail page; an invalid form is a server error with nothing changed; an unknown post is not-found |
| Views.FollowIndex | yatube/posts/views.py:110-122 | anonymous goes to login; otherwise at most 10 posts, each by an author the viewer follows |
| Views.ProfileFollow | yatube/posts/views.py:125-132 | adds exactly the edge viewer to author when they differ, leaves the store unchanged on a self-follow, and is a server error for an unknown username |
| Views.ProfileUnfollow | yatube/posts/views.py:135-139 | removes exactly the edge viewer to author; a missing edge is a server error with the store unchanged |
| Properties.CreateKeepsValid | yatube/posts/views.py:66-73 | creating a post keeps keys distinct and references intact |
| Properties.EditKeepsValid | yatube/posts/views.py:78-88 | editing keeps keys distinct and references intact |
| Properties.CommentKeepsValid | yatube/posts/views.py:98-107 | commenting keeps every comment attached to an existing post by an existing user |
| Properties.FollowKeepsValid | yatube/posts/views.py:125-132 | following never creates a self-edge or an edge to an unknown user |
| Properties.UnfollowKeepsValid | yatube/posts/views.py:135-139 | unfollowing keeps the store invariant |
| Properties.ListingExact | yatube/posts/views.py:24-27 | a post is served on some page of a listing if and only if the listing's query selects it |
| Properties.IndexExact | yatube/posts/views.py:11-15 | the pages of the global feed together show exactly the stored posts |
| Properties.GroupFeedExact | yatube/posts/views.py:22-27 | the pages of a group feed together show exactly the posts of that group |
| Properties.ProfileFeedExact | yatube/posts/views.py:35-42 | the pages of a profile together show exactly the posts by that author |
| Properties.FollowFeedExact | yatube/posts/views.py:110-118 | the pages of the follow feed together show exactly the posts whose author the viewer follows |
| Properties.ThirteenPostsSplitTenThree | yatube/posts/tests/test_views.py:219-268 | with 13 posts by one author in one group, the index, group and profile feeds show 10 on page 1 and 3 on page 2 |
| Properties.FollowIdempotent | yatube/posts/views.py:129-130 | following a second time changes neither the store nor the response |
| Properties.EdgeCountAfterInsert | yatube/posts/views.py:130 | inserting an edge the follower lacked raises their edge count by exactly one |
| Properties.FollowCountsOnce | yatube/posts/tests/test_views.py:185-194 | a fresh follow raises the follower's edge count by one, and a repeated follow does not raise it again |
| Properties.FollowThenUnfollow | yatube/posts/tests/test_views.py:185-200 | following and then unfollowing an author restores the original store |
| Properties.UnfollowLeavesFeed | yatube/posts/tests/test_views.py:202-216 | after an unfollow, no post of that author is on any page of the follow feed |
| Properties.DistinctTail | yatube/posts/views.py:53 | the keys after the first post are distinct and differ from the first post's key |
| Properties.SelectedIdsCons | yatube/posts/views.py:54 | the selected keys of a sequence are the first post's key, if it is selected, plus the selected keys of the rest |
| Properties.SelectCountsIds | yatube/posts/views.py:54 | with distinct keys, the length of a selection equals the number of distinct posts it selects |
| Properties.PostCountCountsAuthoredPosts | yatube/posts/views.py:54 | the detail page's post count is the number of distinct posts by the post's author |
| Properties.CreatedPostShownFirst | yatube/posts/tests/test_views.py:135-151 | a new post is the first item of the index, of its author's profile, and of its group's feed |
| Properties.DetailOfIndex | yatube/posts/views.py:53-54 | helper for `CreateBumpsPostCount`: with distinct keys, the detail page for the i-th post's key shows that very post (not another post sharing the key), with the length of its author's selection as the count |
| Properties.CreateKeepsDistinct | yatube/posts/views.py:70-72 | a created post's key differs from every earlier key |
| Properties.PrependCountsOnce | yatube/posts/views.py:54 | putting a post in front raises its author's `filter(author=...).count()` by one and nobody else's |
| Properties.DetailAfterPrepend | yatube/posts/views.py:52-54 | with distinct keys, after one post is put in front every earlier post's detail page shows the same post, with the count raised by one exactly when the new post has the same author |
| Properties.CreateBumpsPostCount | yatube/posts/views.py:54 | creating a post raises the detail post count by one for posts of the same author and leaves it alone for all other posts |
| Properties.CreatedPostDetail | yatube/posts/tests/test_views.py:112-121 | a new post's detail page shows its text and author and no comments |
| Properties.AuthorEditShows | yatube/posts/views.py:81-88 | the author's valid edit redirects to the detail page, which shows the new text and group |
| Properties.CommentShownOnDetail | yatube/posts/views.py:102-107 | a valid comment is appended to the list the post's detail page shows, under the oldest-first comment order the model assumes |

## Left out

- Template rendering, request and response objects, and redirect URLs. A response is reduced to the context it renders or to the page a redirect points at.
- The index page cache and its expiry. The cache decorator is not part of this model, and expiry depends on wall-clock time.
- Form validation and image upload. `PostForm` and `CommentForm` are not part of this model, so validity is an input (`InvalidPost`/`ValidPost`, `InvalidComment`/`ValidComment`). An unbound form on a GET counts as invalid.
- The group-choice guarantee of `PostForm`: a valid submission names an existing group. The views do not assume it. Only the invariant lemmas for create and edit require it, as `Fits`.
- Images. Posts carry no image field.
- `select_related`. It is a query hint with no effect on results.
- Properties.CommentShownOnDetail: the order of `post.comments.all()` comes from the Comment model's Meta, which is not part of this model. The store keeps comments oldest first and appends a new one, so the lemma places the new comment last. That order is an assumption; with a newest-first Meta ordering the comment would come first. Membership of the new comment, and of every earlier comment, does not depend on the order (`Views.PostDetail` lists exactly the comments attached to the post).
- Recency ordering. It comes from the model's Meta, which is not part of this model. The store keeps posts newest first, and a created post is prepended. That order is an assumption.
- Publication timestamps. Only their ordering role, as the list order, is kept.
- Post deletion. No handler of the core deletes a post; only the cache test does, through the ORM.
- Parsing the `page` query string into an integer. It arrives already classified as absent, not an integer, or a number.
- Views.Profile: the `following` context value is a queryset or `False` in the source. It is modelled as its truth value, which is all the template can observe.
- Views.PostCreate: the key of a new post comes from a counter in the store. That the key is fresh holds only for stores satisfying `Valid` (`Properties.CreateKeepsDistinct`), not for every store.
- Registration, login and password flows, the static about pages, model field labels and migrations. These are framework plumbing with no logic of the core.
