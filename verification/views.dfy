/**
 * The request handlers of the posts application as functions of the store.
 * A handler that only reads returns a `Response`; one that may write
 * returns a `Step`, the store after the request and the response. Template
 * rendering is reduced to the context a page is rendered with, and a
 * redirect to the page it points at.
 *
 * Framework behaviour the handlers rely on is encoded as follows:
 * `login_required` sends an anonymous viewer to the login page;
 * `get_object_or_404` gives `NotFound`; an unhandled `DoesNotExist` from
 * `.get()`, and a handler that returns nothing, give `ServerError`;
 * `get_or_create` on the unique follow pair is set insertion. A form's
 * validity is an input: `InvalidPost` covers both an unbound form (a GET)
 * and a submission the form rejects.
 */
module Views {
  import opened Wrappers
  import opened Paging
  import opened Blog

  datatype Viewer = Anonymous | Member(name: UserName)

  /** Where a redirect points. */
  datatype Target = LoginPage | ProfileOf(name: UserName) | DetailOf(id: PostId)

  /** The context a page is rendered with. */
  datatype View =
    | FeedPage(page: Page<Post>)
    | GroupPage(group: Slug, page: Page<Post>)
    | ProfilePage(author: UserName, page: Page<Post>, following: bool)
    | DetailPage(post: Post, postCount: nat, comments: seq<Comment>)
    | FormPage(editing: Option<PostId>)

  datatype Response = Render(view: View) | Redirect(to: Target) | NotFound | ServerError

  datatype Step = Step(blog: Blog, response: Response)

  /** What a `PostForm` yields: rejected (or unbound), or the cleaned text and group. */
  datatype PostInput = InvalidPost | ValidPost(text: string, group: Option<Slug>)

  /** What a `CommentForm` yields. */
  datatype CommentInput = InvalidComment | ValidComment(text: string)

  /** Shorthand for the posts a rendered listing shows. */
  function Shown(r: Response): seq<Post>
  {
    if r.Render? && (r.view.FeedPage? || r.view.GroupPage? || r.view.ProfilePage?) then r.view.page.items else []
  }

  /** A listing: the posts `q` selects, cut into pages of `PostsPerPage`. */
  function Listing(posts: seq<Post>, q: Query, param: PageParam): (r: Page<Post>)
    ensures |r.items| <= PostsPerPage
    ensures forall p :: p in r.items ==> p in posts && Matches(q, p)
  {
    GetPage(Select(posts, q), param)
  }

  /** `index`: every post, one page of them. */
  function Index(b: Blog, param: PageParam): (r: Response)
    ensures r.Render? && r.view.FeedPage?
    ensures |Shown(r)| <= PostsPerPage
    ensures forall p :: p in Shown(r) ==> p in b.posts
  {
    Render(FeedPage(Listing(b.posts, Everything, param)))
  }

  /** `group_posts`: the posts of one group; an unknown slug is not found. */
  function GroupPosts(b: Blog, slug: Slug, param: PageParam): (r: Response)
    ensures r.NotFound? <==> slug !in b.groups
    ensures r.Render? <==> slug in b.groups
    ensures r.Render? ==> r.view.GroupPage? && r.view.group == slug
    ensures |Shown(r)| <= PostsPerPage
    ensures forall p :: p in Shown(r) ==> p in b.posts && p.group == Some(slug)
  {
    if slug !in b.groups then NotFound
    else Render(GroupPage(slug, Listing(b.posts, InGroup(slug), param)))
  }

  /**
   * `profile`: the posts of one author, and whether the viewer follows
   * that author; an unknown username is not found.
   */
  function Profile(b: Blog, viewer: Viewer, username: UserName, param: PageParam): (r: Response)
    ensures r.NotFound? <==> username !in b.users
    ensures r.Render? <==> username in b.users
    ensures r.Render? ==> r.view.ProfilePage? && r.view.author == username
    ensures r.Render? ==> (r.view.following <==> viewer.Member? && username in FollowedBy(b.follows, viewer.name))
    ensures |Shown(r)| <= PostsPerPage
    ensures forall p :: p in Shown(r) ==> p in b.posts && p.author == username
  {
    if username !in b.users then NotFound
    else
      var following := viewer.Member? && (viewer.name, username) in b.follows;
      Render(ProfilePage(username, Listing(b.posts, ByAuthor(username), param), following))
  }

  /** `post_detail`: one post, its author's post count and its comments; an unknown id is not found. */
  function PostDetail(b: Blog, id: PostId): (r: Response)
    ensures r.NotFound? <==> forall p :: p in b.posts ==> p.id != id
    ensures r.Render? <==> exists p :: p in b.posts && p.id == id
    ensures r.Render? ==> r.view.DetailPage?
    ensures r.Render? ==> r.view.post in b.posts && r.view.post.id == id
    ensures r.Render? ==> 1 <= r.view.postCount <= |b.posts|
    ensures r.Render? ==> forall c :: c in r.view.comments <==> c in b.comments && c.post == id
  {
    match IndexOf(b.posts, id)
    case None => NotFound
    case Some(i) =>
      var post := b.posts[i];
      assert post in Select(b.posts, ByAuthor(post.author));
      Render(DetailPage(post, |Select(b.posts, ByAuthor(post.author))|, CommentsOn(b.comments, id)))
  }

  /**
   * `post_create`: a valid submission becomes the newest post, authored by
   * the viewer, and the viewer is sent to their profile; otherwise the
   * form is shown again and nothing changes.
   */
  function PostCreate(b: Blog, viewer: Viewer, input: PostInput): (r: Step)
    ensures viewer.Anonymous? ==> r == Step(b, Redirect(LoginPage))
    ensures viewer.Member? && input.InvalidPost? ==> r == Step(b, Render(FormPage(None)))
    ensures viewer.Member? && input.ValidPost? ==>
      && r.response == Redirect(ProfileOf(viewer.name))
      && |r.blog.posts| == |b.posts| + 1
      && r.blog.posts[0].author == viewer.name
      && r.blog.posts[0].text == input.text
      && r.blog.posts[0].group == input.group
      && r.blog.posts[0].id == b.nextId
      && r.blog.posts[1..] == b.posts
      && r.blog.(posts := b.posts, nextId := b.nextId) == b
  {
    match viewer
    case Anonymous => Step(b, Redirect(LoginPage))
    case Member(u) =>
      match input
      case InvalidPost => Step(b, Render(FormPage(None)))
      case ValidPost(text, group) =>
        var post := Post(b.nextId, u, text, group);
        Step(b.(posts := [post] + b.posts, nextId := b.nextId + 1), Redirect(ProfileOf(u)))
  }

  /**
   * `post_edit`: only the author's valid submission changes a post, in
   * place, and sends the author to its detail page; the author's invalid
   * (or unbound) form is shown again with nothing changed; anyone else is
   * sent to the post's detail page and nothing changes.
   */
  function PostEdit(b: Blog, viewer: Viewer, id: PostId, input: PostInput): (r: Step)
    ensures viewer.Anonymous? ==> r == Step(b, Redirect(LoginPage))
    ensures viewer.Member? && (forall p :: p in b.posts ==> p.id != id) ==> r == Step(b, NotFound)
    ensures r.blog.(posts := b.posts) == b
    ensures |r.blog.posts| == |b.posts|
    ensures forall i :: 0 <= i < |b.posts| && b.posts[i].id != id ==> r.blog.posts[i] == b.posts[i]
    ensures forall i :: 0 <= i < |b.posts| && (viewer.Anonymous? || b.posts[i].author != viewer.name) ==> r.blog.posts[i] == b.posts[i]
    ensures forall i :: 0 <= i < |b.posts| ==> r.blog.posts[i].id == b.posts[i].id && r.blog.posts[i].author == b.posts[i].author
    ensures
      && viewer.Member?
      && (exists p :: p in b.posts && p.id == id)
      && (forall p :: p in b.posts && p.id == id ==> p.author != viewer.name)
      ==> r == Step(b, Redirect(DetailOf(id)))
    ensures input.InvalidPost? ==> r.blog == b
    ensures forall i :: 0 <= i < |b.posts| && DistinctIds(b.posts) && b.posts[i].id == id && viewer == Member(b.posts[i].author) ==>
      if input.InvalidPost?
      then r == Step(b, Render(FormPage(Some(id))))
      else && r.blog.posts[i] == b.posts[i].(text := input.text, group := input.group)
           && r.response == Redirect(DetailOf(id))
  {
    match viewer
    case Anonymous => Step(b, Redirect(LoginPage))
    case Member(u) =>
      match IndexOf(b.posts, id)
      case None => Step(b, NotFound)
      case Some(i) =>
        var post := b.posts[i];
        if u != post.author then Step(b, Redirect(DetailOf(id)))
        else
          match input
          case InvalidPost => Step(b, Render(FormPage(Some(id))))
          case ValidPost(text, group) =>
            Step(b.(posts := b.posts[i := post.(text := text, group := group)]), Redirect(DetailOf(id)))
  }

  /**
   * `add_comment`: a valid comment is attached to the post and the viewer
   * is sent to its detail page. On an invalid form the handler returns
   * nothing, which the framework turns into a server error.
   */
  function AddComment(b: Blog, viewer: Viewer, id: PostId, input: CommentInput): (r: Step)
    ensures viewer.Anonymous? ==> r == Step(b, Redirect(LoginPage))
    ensures viewer.Member? && (forall p :: p in b.posts ==> p.id != id) ==> r == Step(b, NotFound)
    ensures r.blog.(comments := b.comments) == b
    ensures r.blog.comments == b.comments
      || (viewer.Member? && input.ValidComment? && r.blog.comments == b.comments + [Comment(id, viewer.name, input.text)])
    ensures viewer.Member? && (exists p :: p in b.posts && p.id == id) ==>
      if input.ValidComment?
      then r == Step(b.(comments := b.comments + [Comment(id, viewer.name, input.text)]), Redirect(DetailOf(id)))
      else r == Step(b, ServerError)
  {
    match viewer
    case Anonymous => Step(b, Redirect(LoginPage))
    case Member(u) =>
      match IndexOf(b.posts, id)
      case None => Step(b, NotFound)
      case Some(_) =>
        match input
        case InvalidComment => Step(b, ServerError)
        case ValidComment(text) =>
          Step(b.(comments := b.comments + [Comment(id, u, text)]), Redirect(DetailOf(id)))
  }

  /** `follow_index`: the posts of the authors the viewer follows. */
  function FollowIndex(b: Blog, viewer: Viewer, param: PageParam): (r: Response)
    ensures viewer.Anonymous? <==> r == Redirect(LoginPage)
    ensures viewer.Member? ==> r.Render? && r.view.FeedPage?
    ensures |Shown(r)| <= PostsPerPage
    ensures forall p :: p in Shown(r) ==> p in b.posts && viewer.Member? && (viewer.name, p.author) in b.follows
  {
    match viewer
    case Anonymous => Redirect(LoginPage)
    case Member(u) => Render(FeedPage(Listing(b.posts, ByAuthors(FollowedBy(b.follows, u)), param)))
  }

  /**
   * `profile_follow`: add the edge viewer -> author unless they are the
   * same user; an existing edge is left as it is. An unknown username is
   * an unhandled lookup error.
   */
  function ProfileFollow(b: Blog, viewer: Viewer, username: UserName): (r: Step)
    ensures viewer.Anonymous? ==> r == Step(b, Redirect(LoginPage))
    ensures viewer.Member? && username !in b.users ==> r == Step(b, ServerError)
    ensures viewer.Member? && username in b.users ==> r.response == Redirect(ProfileOf(username))
    ensures r.blog.(follows := b.follows) == b
    ensures b.follows <= r.blog.follows
    ensures viewer.Member? && username in b.users && viewer.name != username ==> (viewer.name, username) in r.blog.follows
    ensures r.blog.follows == b.follows || (viewer.Member? && r.blog.follows == b.follows + {(viewer.name, username)})
    ensures viewer.Member? && viewer.name == username ==> r.blog == b
  {
    match viewer
    case Anonymous => Step(b, Redirect(LoginPage))
    case Member(u) =>
      if username !in b.users then Step(b, ServerError)
      else if u != username then Step(b.(follows := b.follows + {(u, username)}), Redirect(ProfileOf(username)))
      else Step(b, Redirect(ProfileOf(username)))
  }

  /**
   * `profile_unfollow`: delete the edge viewer -> author. A missing edge is
   * an unhandled lookup error, not a no-op.
   */
  function ProfileUnfollow(b: Blog, viewer: Viewer, username: UserName): (r: Step)
    ensures viewer.Anonymous? ==> r == Step(b, Redirect(LoginPage))
    ensures viewer.Member? && (viewer.name, username) !in b.follows ==> r == Step(b, ServerError)
    ensures viewer.Member? && (viewer.name, username) in b.follows ==>
      && r.response == Redirect(ProfileOf(username))
      && r.blog.follows + {(viewer.name, username)} == b.follows
      && (viewer.name, username) !in r.blog.follows
    ensures r.blog.(follows := b.follows) == b
    ensures r.blog.follows <= b.follows
  {
    match viewer
    case Anonymous => Step(b, Redirect(LoginPage))
    case Member(u) =>
      if (u, username) !in b.follows then Step(b, ServerError)
      else Step(b.(follows := b.follows - {(u, username)}), Redirect(ProfileOf(username)))
  }
}
