/**
 * Properties relating the handlers to each other and to the store:
 * the invariant every writing handler keeps, the exact contents of each
 * feed across all its pages, and the effect of create, edit, comment,
 * follow and unfollow as a visitor of the site observes it.
 */
module Properties {
  import opened Wrappers
  import opened Seqs
  import opened Paging
  import opened Blog
  import opened Views

  /** A logged-in viewer is a user of the site. */
  predicate Known(b: Blog, viewer: Viewer)
  {
    viewer.Member? ==> viewer.name in b.users
  }

  /** What the post form guarantees of a valid submission: its group, if any, exists. */
  predicate Fits(b: Blog, input: PostInput)
  {
    input.ValidPost? && input.group.Some? ==> input.group.value in b.groups
  }

  // ---------------------------------------------------------------------------
  // The store invariant is kept by every handler that writes.

  lemma CreateKeepsValid(b: Blog, viewer: Viewer, input: PostInput)
    requires Valid(b) && Known(b, viewer) && Fits(b, input)
    ensures Valid(PostCreate(b, viewer, input).blog)
  {
  }

  lemma EditKeepsValid(b: Blog, viewer: Viewer, id: PostId, input: PostInput)
    requires Valid(b) && Fits(b, input)
    ensures Valid(PostEdit(b, viewer, id, input).blog)
  {
  }

  lemma CommentKeepsValid(b: Blog, viewer: Viewer, id: PostId, input: CommentInput)
    requires Valid(b) && Known(b, viewer)
    ensures Valid(AddComment(b, viewer, id, input).blog)
  {
  }

  lemma FollowKeepsValid(b: Blog, viewer: Viewer, username: UserName)
    requires Valid(b) && Known(b, viewer)
    ensures Valid(ProfileFollow(b, viewer, username).blog)
  {
  }

  lemma UnfollowKeepsValid(b: Blog, viewer: Viewer, username: UserName)
    requires Valid(b)
    ensures Valid(ProfileUnfollow(b, viewer, username).blog)
  {
  }

  // ---------------------------------------------------------------------------
  // Each feed, read across all its pages, is exactly its filter.

  /** A post the query selects is served on some page of the listing; every served post is selected. */
  lemma ListingExact(posts: seq<Post>, q: Query, p: Post)
    ensures (p in posts && Matches(q, p)) <==> exists k :: p in Listing(posts, q, Number(k)).items
  {
    if p in posts && Matches(q, p) {
      OnSomePage(Select(posts, q), p);
    }
  }

  lemma IndexExact(b: Blog, p: Post)
    ensures p in b.posts <==> exists k :: p in Shown(Index(b, Number(k)))
  {
    ListingExact(b.posts, Everything, p);
    if p in b.posts {
      var k :| p in Listing(b.posts, Everything, Number(k)).items;
      assert p in Shown(Index(b, Number(k)));
    }
  }

  lemma GroupFeedExact(b: Blog, slug: Slug, p: Post)
    requires slug in b.groups
    ensures (p in b.posts && p.group == Some(slug)) <==> exists k :: p in Shown(GroupPosts(b, slug, Number(k)))
  {
    ListingExact(b.posts, InGroup(slug), p);
    if p in b.posts && p.group == Some(slug) {
      var k :| p in Listing(b.posts, InGroup(slug), Number(k)).items;
      assert p in Shown(GroupPosts(b, slug, Number(k)));
    }
  }

  lemma ProfileFeedExact(b: Blog, viewer: Viewer, username: UserName, p: Post)
    requires username in b.users
    ensures (p in b.posts && p.author == username) <==> exists k :: p in Shown(Profile(b, viewer, username, Number(k)))
  {
    ListingExact(b.posts, ByAuthor(username), p);
    if p in b.posts && p.author == username {
      var k :| p in Listing(b.posts, ByAuthor(username), Number(k)).items;
      assert p in Shown(Profile(b, viewer, username, Number(k)));
    }
  }

  /** The follow feed holds exactly the posts whose author the viewer follows. */
  lemma FollowFeedExact(b: Blog, user: UserName, p: Post)
    ensures (p in b.posts && (user, p.author) in b.follows) <==> exists k :: p in Shown(FollowIndex(b, Member(user), Number(k)))
  {
    var q := ByAuthors(FollowedBy(b.follows, user));
    ListingExact(b.posts, q, p);
    if p in b.posts && (user, p.author) in b.follows {
      var k :| p in Listing(b.posts, q, Number(k)).items;
      assert p in Shown(FollowIndex(b, Member(user), Number(k)));
    }
  }

  // ---------------------------------------------------------------------------
  // Pagination as the test suite pins it: 13 posts split 10 + 3.

  lemma ThirteenPostsSplitTenThree(b: Blog, viewer: Viewer, author: UserName, slug: Slug)
    requires |b.posts| == 13
    requires author in b.users && slug in b.groups
    requires forall p :: p in b.posts ==> p.author == author && p.group == Some(slug)
    ensures |Shown(Index(b, Absent))| == 10 && |Shown(Index(b, Number(2)))| == 3
    ensures |Shown(GroupPosts(b, slug, Absent))| == 10 && |Shown(GroupPosts(b, slug, Number(2)))| == 3
    ensures |Shown(Profile(b, viewer, author, Absent))| == 10 && |Shown(Profile(b, viewer, author, Number(2)))| == 3
  {
    FilterKeepsAll(b.posts, (p: Post) => Matches(Everything, p));
    FilterKeepsAll(b.posts, (p: Post) => Matches(InGroup(slug), p));
    FilterKeepsAll(b.posts, (p: Post) => Matches(ByAuthor(author), p));
    FirstAndSecondPage(b.posts);
  }

  // ---------------------------------------------------------------------------
  // Follow and unfollow.

  /** Following twice in a row is the same as following once. */
  lemma FollowIdempotent(b: Blog, viewer: Viewer, username: UserName)
    ensures var once := ProfileFollow(b, viewer, username);
      ProfileFollow(once.blog, viewer, username) == once
  {
  }

  /** Adding an edge the follower did not have raises their edge count by one. */
  lemma EdgeCountAfterInsert(follows: set<(UserName, UserName)>, user: UserName, author: UserName)
    requires (user, author) !in follows
    ensures |EdgesOf(follows + {(user, author)}, user)| == |EdgesOf(follows, user)| + 1
  {
    assert EdgesOf(follows + {(user, author)}, user) == EdgesOf(follows, user) + {(user, author)};
  }

  /**
   * A fresh follow of another existing user raises the follower's edge
   * count by exactly one, and following again does not raise it further.
   */
  lemma FollowCountsOnce(b: Blog, user: UserName, author: UserName)
    requires author in b.users && user != author && (user, author) !in b.follows
    ensures var once := ProfileFollow(b, Member(user), author).blog;
      && |EdgesOf(once.follows, user)| == |EdgesOf(b.follows, user)| + 1
      && |EdgesOf(ProfileFollow(once, Member(user), author).blog.follows, user)| == |EdgesOf(b.follows, user)| + 1
  {
    EdgeCountAfterInsert(b.follows, user, author);
  }

  /** Follow then unfollow gives back the store it started from. */
  lemma FollowThenUnfollow(b: Blog, user: UserName, author: UserName)
    requires author in b.users && user != author && (user, author) !in b.follows
    ensures ProfileUnfollow(ProfileFollow(b, Member(user), author).blog, Member(user), author)
      == Step(b, Redirect(ProfileOf(author)))
  {
  }

  /** After an unfollow no post of that author is on any page of the follow feed. */
  lemma UnfollowLeavesFeed(b: Blog, user: UserName, author: UserName, param: PageParam)
    requires (user, author) in b.follows
    ensures forall p :: p in Shown(FollowIndex(ProfileUnfollow(b, Member(user), author).blog, Member(user), param)) ==> p.author != author
  {
  }

  // ---------------------------------------------------------------------------
  // Post detail, create, edit and comment.

  /** The ids of `posts` the query selects. */
  function SelectedIds(posts: seq<Post>, q: Query): set<PostId>
  {
    set p | p in posts && Matches(q, p) :: p.id
  }

  /** The tail of a sequence with distinct ids has distinct ids, none of them the head's. */
  lemma DistinctTail(posts: seq<Post>)
    requires |posts| > 0 && DistinctIds(posts)
    ensures DistinctIds(posts[1..])
    ensures forall p :: p in posts[1..] ==> p.id != posts[0].id
  {
  }

  /** The selected ids of a non-empty sequence: the head's, if selected, and the tail's. */
  lemma SelectedIdsCons(posts: seq<Post>, q: Query)
    requires |posts| > 0
    ensures SelectedIds(posts, q) == (if Matches(q, posts[0]) then {posts[0].id} else {}) + SelectedIds(posts[1..], q)
  {
  }

  /** With distinct ids, the length of a selection is the number of distinct posts it selects. */
  lemma {:induction false} SelectCountsIds(posts: seq<Post>, q: Query)
    requires DistinctIds(posts)
    ensures |Select(posts, q)| == |SelectedIds(posts, q)|
  {
    if |posts| > 0 {
      var x, rest := posts[0], posts[1..];
      assert posts == [x] + rest;
      FilterCons(x, rest, (p: Post) => Matches(q, p));
      DistinctTail(posts);
      SelectCountsIds(rest, q);
      SelectedIdsCons(posts, q);
      assert x.id !in SelectedIds(rest, q);
    }
  }

  /** The detail page's post count is the number of distinct posts by the post's author. */
  lemma PostCountCountsAuthoredPosts(b: Blog, id: PostId)
    requires Valid(b)
    requires exists p :: p in b.posts && p.id == id
    ensures var r := PostDetail(b, id);
      r.view.postCount == |SelectedIds(b.posts, ByAuthor(r.view.post.author))|
  {
    var r := PostDetail(b, id);
    SelectCountsIds(b.posts, ByAuthor(r.view.post.author));
  }

  /** The new post heads the global feed, its author's profile and its group's feed. */
  lemma CreatedPostShownFirst(b: Blog, user: UserName, text: string, group: Option<Slug>)
    requires user in b.users
    requires group.Some? ==> group.value in b.groups
    ensures var b' := PostCreate(b, Member(user), ValidPost(text, group)).blog;
      && Shown(Index(b', Absent))[0] == b'.posts[0]
      && Shown(Profile(b', Member(user), user, Absent))[0] == b'.posts[0]
      && (group.Some? ==> Shown(GroupPosts(b', group.value, Absent))[0] == b'.posts[0])
  {
  }

  /**
   * Helper for `CreateBumpsPostCount`: with distinct ids, the detail page
   * for the i-th post's key shows that very post, and its count is the
   * length of that author's selection.
   */
  lemma DetailOfIndex(b: Blog, i: nat)
    requires DistinctIds(b.posts) && i < |b.posts|
    ensures var r := PostDetail(b, b.posts[i].id);
      && r.Render? && r.view.post == b.posts[i]
      && r.view.postCount == |Select(b.posts, ByAuthor(b.posts[i].author))|
  {
  }

  /** A created post carries a key no earlier post has, so the keys stay distinct. */
  lemma CreateKeepsDistinct(b: Blog, user: UserName, text: string, group: Option<Slug>)
    requires Valid(b)
    ensures DistinctIds(PostCreate(b, Member(user), ValidPost(text, group)).blog.posts)
  {
  }

  /** Putting a post in front raises its author's selection by one and nobody else's. */
  lemma PrependCountsOnce(post: Post, posts: seq<Post>, author: UserName)
    ensures |Select([post] + posts, ByAuthor(author))| == |Select(posts, ByAuthor(author))| + (if post.author == author then 1 else 0)
  {
    FilterCons(post, posts, (p: Post) => Matches(ByAuthor(author), p));
  }

  /** The detail page of a post, before and after one post is put in front of a store with distinct keys. */
  lemma DetailAfterPrepend(b: Blog, b': Blog, i: nat)
    requires DistinctIds(b.posts) && DistinctIds(b'.posts)
    requires |b'.posts| > 0 && b'.posts[1..] == b.posts && i < |b.posts|
    ensures var r := PostDetail(b, b.posts[i].id);
      var r' := PostDetail(b', b.posts[i].id);
      && r'.Render? && r'.view.post == r.view.post == b.posts[i]
      && r'.view.postCount == r.view.postCount + (if b.posts[i].author == b'.posts[0].author then 1 else 0)
  {
    assert b'.posts == [b'.posts[0]] + b.posts;
    assert b'.posts[i + 1] == b.posts[i];
    DetailOfIndex(b, i);
    DetailOfIndex(b', i + 1);
    PrependCountsOnce(b'.posts[0], b.posts, b.posts[i].author);
  }

  /**
   * Creating a post raises the detail page's post count by one for every
   * post of its author and leaves it alone for everyone else's posts.
   */
  lemma CreateBumpsPostCount(b: Blog, user: UserName, text: string, group: Option<Slug>, i: nat)
    requires Valid(b) && i < |b.posts|
    ensures var id := b.posts[i].id;
      var r := PostDetail(b, id);
      var r' := PostDetail(PostCreate(b, Member(user), ValidPost(text, group)).blog, id);
      && r'.Render? && r'.view.post == r.view.post == b.posts[i]
      && r'.view.postCount == r.view.postCount + (if b.posts[i].author == user then 1 else 0)
  {
    var b' := PostCreate(b, Member(user), ValidPost(text, group)).blog;
    CreateKeepsDistinct(b, user, text, group);
    DetailAfterPrepend(b, b', i);
  }

  /** A new post shows its text on its detail page, with no comments yet. */
  lemma CreatedPostDetail(b: Blog, user: UserName, text: string, group: Option<Slug>)
    requires Valid(b)
    ensures var b' := PostCreate(b, Member(user), ValidPost(text, group)).blog;
      var r := PostDetail(b', b.nextId);
      r.Render? && r.view.post.text == text && r.view.post.author == user && r.view.comments == []
  {
    var b' := PostCreate(b, Member(user), ValidPost(text, group)).blog;
    assert b'.posts[0].id == b.nextId;
    assert forall c :: c in b.comments ==> c.post != b.nextId;
    FilterNone(b.comments, (c: Comment) => c.post == b.nextId);
  }

  /** The author's valid edit rewrites the post in place and the detail page shows it. */
  lemma AuthorEditShows(b: Blog, i: nat, text: string, group: Option<Slug>)
    requires Valid(b) && i < |b.posts|
    ensures var post := b.posts[i];
      var step := PostEdit(b, Member(post.author), post.id, ValidPost(text, group));
      && step.response == Redirect(DetailOf(post.id))
      && PostDetail(step.blog, post.id).view.post == post.(text := text, group := group)
  {
    var post := b.posts[i];
    IndexOfDistinct(b.posts, i);
    var b' := PostEdit(b, Member(post.author), post.id, ValidPost(text, group)).blog;
    assert DistinctIds(b'.posts) by {
      forall j, k | 0 <= j < k < |b'.posts| ensures b'.posts[j].id != b'.posts[k].id {
        assert b'.posts[j].id == b.posts[j].id && b'.posts[k].id == b.posts[k].id;
      }
    }
    IndexOfDistinct(b'.posts, i);
  }

  /** A valid comment is appended to the comments the post's detail page lists. */
  lemma CommentShownOnDetail(b: Blog, user: UserName, id: PostId, text: string)
    requires exists p :: p in b.posts && p.id == id
    ensures var b' := AddComment(b, Member(user), id, ValidComment(text)).blog;
      PostDetail(b', id).view.comments == PostDetail(b, id).view.comments + [Comment(id, user, text)]
  {
    FilterAppend(b.comments, [Comment(id, user, text)], (c: Comment) => c.post == id);
    FilterCons(Comment(id, user, text), [], (c: Comment) => c.post == id);
    assert [Comment(id, user, text)] + [] == [Comment(id, user, text)];
  }
}
