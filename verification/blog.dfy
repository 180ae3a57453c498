/**
 * The data the posts views read and write: users, groups, posts (newest
 * first, as the listings show them), comments and follow edges. The ORM
 * rows are modelled as values; a foreign key is the key it points at.
 */
module Blog {
  import opened Wrappers
  import opened Seqs

  /** A user is identified by the (unique) username. */
  type UserName = string
  /** A group is identified by its (unique) slug. */
  type Slug = string
  /** The primary key of a post. */
  type PostId = nat

  datatype Post = Post(id: PostId, author: UserName, text: string, group: Option<Slug>)

  datatype Comment = Comment(post: PostId, author: UserName, text: string)

  /**
   * The whole store. `posts` is in listing order, newest first; `follows`
   * holds the directed (follower, author) edges, unique per pair;
   * `nextId` is the next primary key the database hands out.
   */
  datatype Blog = Blog(
    users: set<UserName>,
    groups: set<Slug>,
    posts: seq<Post>,
    comments: seq<Comment>,
    follows: set<(UserName, UserName)>,
    nextId: PostId)

  /** No two posts share a primary key. */
  ghost predicate DistinctIds(posts: seq<Post>)
  {
    forall i, j :: 0 <= i < j < |posts| ==> posts[i].id != posts[j].id
  }

  /** The referential integrity the schema keeps, and no self-follow edge. */
  ghost predicate Valid(b: Blog)
  {
    && DistinctIds(b.posts)
    && (forall p :: p in b.posts ==> p.id < b.nextId && p.author in b.users)
    && (forall p :: p in b.posts && p.group.Some? ==> p.group.value in b.groups)
    && (forall c :: c in b.comments ==> c.author in b.users && exists p :: p in b.posts && p.id == c.post)
    && (forall e :: e in b.follows ==> e.0 != e.1 && e.0 in b.users && e.1 in b.users)
  }

  /** The filters the listing views put on the post table. */
  datatype Query =
    | Everything
    | InGroup(slug: Slug)
    | ByAuthor(name: UserName)
    | ByAuthors(names: set<UserName>)

  predicate Matches(q: Query, p: Post)
  {
    match q
    case Everything => true
    case InGroup(g) => p.group == Some(g)
    case ByAuthor(a) => p.author == a
    case ByAuthors(authors) => p.author in authors
  }

  /** The posts a query selects, in listing order. */
  function Select(posts: seq<Post>, q: Query): (r: seq<Post>)
    ensures |r| <= |posts|
    ensures forall p :: p in r <==> p in posts && Matches(q, p)
  {
    Filter(posts, (p: Post) => Matches(q, p))
  }

  /** The authors `user` follows: `Follow.objects.filter(user=user).values_list('author_id')`. */
  function FollowedBy(follows: set<(UserName, UserName)>, user: UserName): (r: set<UserName>)
    ensures forall a :: a in r <==> (user, a) in follows
  {
    set e | e in follows && e.0 == user :: e.1
  }

  /** The edges whose follower is `user`: `Follow.objects.filter(user=user)`. */
  function EdgesOf(follows: set<(UserName, UserName)>, user: UserName): (r: set<(UserName, UserName)>)
    ensures r <= follows
    ensures forall e :: e in r <==> e in follows && e.0 == user
  {
    set e | e in follows && e.0 == user
  }

  /** The position of the post with primary key `id`, if there is one. */
  function IndexOf(posts: seq<Post>, id: PostId): (r: Option<nat>)
    ensures r.Some? ==> r.value < |posts| && posts[r.value].id == id
    ensures r.None? <==> forall p :: p in posts ==> p.id != id
  {
    if |posts| == 0 then None
    else if posts[0].id == id then Some(0)
    else match IndexOf(posts[1..], id)
      case None => None
      case Some(i) => Some(i + 1)
  }

  /** With distinct keys, the lookup finds the one post carrying the key. */
  lemma IndexOfDistinct(posts: seq<Post>, i: nat)
    requires DistinctIds(posts) && i < |posts|
    ensures IndexOf(posts, posts[i].id) == Some(i)
  {
  }

  /** The comments on post `id`, oldest first: `post.comments.all()`. */
  function CommentsOn(comments: seq<Comment>, id: PostId): (r: seq<Comment>)
    ensures forall c :: c in r <==> c in comments && c.post == id
  {
    Filter(comments, (c: Comment) => c.post == id)
  }
}
