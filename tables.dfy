/** The rows the views read and write (posts, comments, follow edges) and the
    queries they run over them. A user is named by their username, which is
    unique; a group by its slug. */
module Tables {
  import opened Wrappers

  type UserName = string
  type Slug = string

  datatype Post = Post(id: nat, author: UserName, text: string, group: Option<Slug>, image: Option<string>)

  datatype Comment = Comment(post: nat, author: UserName, text: string)

  /** A row of the Follow table: `user` follows `author`. */
  datatype Follow = Follow(user: UserName, author: UserName)

  /** The user a request comes from. */
  datatype Viewer = Anonymous | Member(name: UserName)

  /** The cleaned fields of a valid PostForm. */
  datatype PostForm = PostForm(text: string, group: Option<Slug>, image: Option<string>)

  /** How a view fails. AuthRequired is the login redirect of `login_required`;
      NotFound is `get_object_or_404`; DoesNotExist and MultipleObjectsReturned
      are the exceptions of a queryset's `.get`; NotOwner is the redirect of a
      non-owner's edit to the read-only view; FormInvalid is a form re-rendered
      with its errors; ServerError is any other exception escaping a view,
      answered with the 500 page. */
  datatype Error = AuthRequired | NotFound | DoesNotExist | MultipleObjectsReturned | NotOwner | FormInvalid | ServerError

  // ---------------------------------------------------------------------------
  // Generic queries

  /** `queryset.filter(...)`: the items of `s` that satisfy `keep`, in order. */
  function Filter<T>(s: seq<T>, keep: T -> bool): (r: seq<T>)
    ensures |r| <= |s|
    ensures forall x :: x in r ==> x in s && keep(x)
    ensures forall x :: x in s && keep(x) ==> x in r
  {
    if s == [] then [] else (if keep(s[0]) then [s[0]] else []) + Filter(s[1..], keep)
  }

  /** Filtering a concatenation filters each part: a filter keeps store order. */
  lemma {:induction false} FilterAppend<T>(a: seq<T>, b: seq<T>, keep: T -> bool)
    ensures Filter(a + b, keep) == Filter(a, keep) + Filter(b, keep)
  {
    if a != [] {
      var head := if keep(a[0]) then [a[0]] else [];
      assert (a + b)[0] == a[0] && (a + b)[1..] == a[1..] + b;
      assert Filter(a + b, keep) == head + Filter(a[1..] + b, keep);
      FilterAppend(a[1..], b, keep);
      assert Filter(a + b, keep) == (head + Filter(a[1..], keep)) + Filter(b, keep);
    } else {
      assert a + b == b;
    }
  }

  /** Filtering keeps everything when every item passes. */
  lemma {:induction false} FilterAll<T>(s: seq<T>, keep: T -> bool)
    requires forall x :: x in s ==> keep(x)
    ensures Filter(s, keep) == s
  {
    if s != [] {
      FilterAll(s[1..], keep);
    }
  }

  /** The position of the first item satisfying `hit`. */
  function FirstIndex<T>(s: seq<T>, hit: T -> bool): (r: Option<nat>)
    ensures r.Some? ==> r.value < |s| && hit(s[r.value])
    ensures r.Some? ==> forall j :: 0 <= j < r.value ==> !hit(s[j])
    ensures r.None? <==> forall j :: 0 <= j < |s| ==> !hit(s[j])
  {
    if s == [] then None
    else if hit(s[0]) then Some(0)
    else match FirstIndex(s[1..], hit)
      case None => None
      case Some(i) => Some(i + 1)
  }

  // ---------------------------------------------------------------------------
  // Filter conditions, one per query of the views

  function ByAuthor(a: UserName): Post -> bool { (p: Post) => p.author == a }
  function InGroup(g: Slug): Post -> bool { (p: Post) => p.group == Some(g) }
  function ByAnyOf(authors: seq<UserName>): Post -> bool { (p: Post) => p.author in authors }
  function HasId(id: nat): Post -> bool { (p: Post) => p.id == id }
  function OnPost(id: nat): Comment -> bool { (c: Comment) => c.post == id }
  function RowsOf(u: UserName): Follow -> bool { (f: Follow) => f.user == u }
  function Is(f: Follow): Follow -> bool { (r: Follow) => r == f }
  function Other(f: Follow): Follow -> bool { (r: Follow) => r != f }

  // ---------------------------------------------------------------------------
  // Post feeds

  /** `author.posts.all()`: the posts of one author, in store order. */
  function AuthorPosts(posts: seq<Post>, a: UserName): (r: seq<Post>)
    ensures forall p :: p in r <==> p in posts && p.author == a
  {
    Filter(posts, ByAuthor(a))
  }

  /** `group.posts.all()`: the posts filed under one group, in store order. */
  function GroupFeed(posts: seq<Post>, g: Slug): (r: seq<Post>)
    ensures forall p :: p in r <==> p in posts && p.group == Some(g)
  {
    Filter(posts, InGroup(g))
  }

  /** `post.comments.all()`: the comments on one post, in store order. */
  function PostComments(comments: seq<Comment>, id: nat): (r: seq<Comment>)
    ensures forall c :: c in r <==> c in comments && c.post == id
  {
    Filter(comments, OnPost(id))
  }

  /** A post created by `p.author` is appended to that author's feed and leaves
      every other author's feed as it was. */
  lemma NewPostInFeeds(posts: seq<Post>, p: Post, a: UserName)
    ensures AuthorPosts(posts + [p], a)
         == AuthorPosts(posts, a) + (if p.author == a then [p] else [])
    ensures |AuthorPosts(posts + [p], a)| == |AuthorPosts(posts, a)| + (if p.author == a then 1 else 0)
  {
    FilterAppend(posts, [p], ByAuthor(a));
    assert [p][1..] == [];
  }

  /** A group nobody has posted in has an empty feed. */
  lemma {:induction false} EmptyGroup(posts: seq<Post>, g: Slug)
    requires forall p :: p in posts ==> p.group != Some(g)
    ensures GroupFeed(posts, g) == []
  {
    if posts != [] {
      assert !InGroup(g)(posts[0]);
      assert forall p :: p in posts[1..] ==> p in posts;
      EmptyGroup(posts[1..], g);
    }
  }

  // ---------------------------------------------------------------------------
  // Posts by primary key

  predicate UniqueIds(posts: seq<Post>)
  {
    forall i, j :: 0 <= i < j < |posts| ==> posts[i].id != posts[j].id
  }

  function PostIds(posts: seq<Post>): set<nat>
  {
    set p | p in posts :: p.id
  }

  /** `Post.objects.get(pk=id)`: the position of the post with that id. */
  function FindPost(posts: seq<Post>, id: nat): (r: Option<nat>)
    ensures r.Some? ==> r.value < |posts| && posts[r.value].id == id
    ensures r.None? <==> id !in PostIds(posts)
    ensures r.Some? && UniqueIds(posts) ==>
      forall j :: 0 <= j < |posts| && j != r.value ==> posts[j].id != id
  {
    var r := FirstIndex(posts, HasId(id));
    assert r.Some? ==> posts[r.value] in posts;
    assert r.None? ==> forall p :: p in posts ==> p.id != id by {
      if r.None? {
        forall p | p in posts ensures p.id != id {
          var j :| 0 <= j < |posts| && posts[j] == p;
          assert !HasId(id)(posts[j]);
        }
      }
    }
    r
  }

  /** The post with its form fields replaced by those of `form`; the id and the
      author stay, so an edit never changes who may edit the post. */
  function Revise(p: Post, form: PostForm): (q: Post)
    ensures q.id == p.id && q.author == p.author
    ensures q.text == form.text && q.group == form.group && q.image == form.image
    ensures forall v :: CanEdit(v, q) <==> CanEdit(v, p)
  {
    p.(text := form.text, group := form.group, image := form.image)
  }

  /** Ownership test of `post_edit`: only the signed-in author may edit. */
  predicate CanEdit(viewer: Viewer, p: Post)
    ensures CanEdit(viewer, p) <==> viewer == Member(p.author)
  {
    viewer.Member? && viewer.name == p.author
  }

  /** A post has one editor: no two different viewers may both edit it. */
  lemma OneEditor(v: Viewer, w: Viewer, p: Post)
    requires CanEdit(v, p) && CanEdit(w, p)
    ensures v == w
  {
  }

  // ---------------------------------------------------------------------------
  // The Follow table

  /** At most one row per ordered pair (`unique_together = (user, author)`). */
  predicate Unique(rows: seq<Follow>)
  {
    forall i, j :: 0 <= i < j < |rows| ==> rows[i] != rows[j]
  }

  /** Nobody follows themself. */
  predicate NoSelf(rows: seq<Follow>)
  {
    forall f :: f in rows ==> f.user != f.author
  }

  /** A table without repeated rows holds each row once or not at all. */
  lemma {:induction false} UniqueCount(rows: seq<Follow>, f: Follow)
    requires Unique(rows)
    ensures multiset(rows)[f] == if f in rows then 1 else 0
  {
    if rows != [] {
      assert rows == [rows[0]] + rows[1..];
      assert Unique(rows[1..]);
      UniqueCount(rows[1..], f);
      if rows[0] == f {
        assert f !in rows[1..];
      }
    }
  }

  /** What `profile_follow` leaves in the table: the row is inserted only when
      the user is not the author and the row is absent. */
  function AfterFollow(rows: seq<Follow>, u: UserName, a: UserName): (r: seq<Follow>)
    ensures forall g :: g in r <==> g in rows || (u != a && g == Follow(u, a))
    ensures |r| == |rows| + (if u != a && Follow(u, a) !in rows then 1 else 0)
    ensures r[..|rows|] == rows
  {
    if u != a && Follow(u, a) !in rows then rows + [Follow(u, a)] else rows
  }

  /** Following oneself never changes the table. */
  lemma SelfFollow(rows: seq<Follow>, a: UserName)
    ensures AfterFollow(rows, a, a) == rows
  {
  }

  /** A first follow of another user adds exactly that row: the table grows by one. */
  lemma FollowAdds(rows: seq<Follow>, u: UserName, a: UserName)
    requires u != a && Follow(u, a) !in rows
    ensures |AfterFollow(rows, u, a)| == |rows| + 1
    ensures forall f :: f in AfterFollow(rows, u, a) <==> f in rows || f == Follow(u, a)
  {
  }

  /** Following keeps the table free of repeated rows and of self-follows. */
  lemma FollowKeepsValid(rows: seq<Follow>, u: UserName, a: UserName)
    requires Unique(rows)
    ensures Unique(AfterFollow(rows, u, a))
    ensures NoSelf(rows) ==> NoSelf(AfterFollow(rows, u, a))
  {
  }

  /** Following the same author twice leaves exactly one row for the pair. */
  lemma {:induction false} FollowTwice(rows: seq<Follow>, u: UserName, a: UserName)
    requires Unique(rows) && u != a
    ensures AfterFollow(AfterFollow(rows, u, a), u, a) == AfterFollow(rows, u, a)
    ensures multiset(AfterFollow(AfterFollow(rows, u, a), u, a))[Follow(u, a)] == 1
  {
    FollowKeepsValid(rows, u, a);
    UniqueCount(AfterFollow(rows, u, a), Follow(u, a));
  }

  /** `queryset.get(...)` on the Follow table: the position of the one row equal
      to `f`; DoesNotExist when there is none, MultipleObjectsReturned when
      there are two or more. */
  function GetRow(rows: seq<Follow>, f: Follow): (r: Result<nat, Error>)
    ensures r.Ok? ==> r.value < |rows| && rows[r.value] == f
    ensures r.Ok? ==> f !in rows[..r.value] && f !in rows[r.value + 1..]
    ensures r == Err(MultipleObjectsReturned) ==>
      exists i, j :: 0 <= i < j < |rows| && rows[i] == f && rows[j] == f
    ensures r == Err(DoesNotExist) <==> f !in rows
    ensures r.Ok? || r.error == DoesNotExist || r.error == MultipleObjectsReturned
  {
    match FirstIndex(rows, Is(f))
    case None =>
      assert forall j :: 0 <= j < |rows| ==> !Is(f)(rows[j]);
      Err(DoesNotExist)
    case Some(i) =>
      assert Is(f)(rows[i]);
      if f in rows[i + 1..] then Err(MultipleObjectsReturned) else Ok(i)
  }

  /** On a table without repeated rows `.get` never finds two rows: it either
      finds the row or reports DoesNotExist. */
  lemma GetUnique(rows: seq<Follow>, f: Follow)
    requires Unique(rows)
    ensures GetRow(rows, f).Ok? <==> f in rows
    ensures GetRow(rows, f).Err? ==> GetRow(rows, f).error == DoesNotExist
  {
  }

  /** The table without the row `f`. */
  function Without(rows: seq<Follow>, f: Follow): (r: seq<Follow>)
    ensures forall g :: g in r <==> g in rows && g != f
  {
    Filter(rows, Other(f))
  }

  /** Without `f` leaves a table that never held `f` as it is. */
  lemma {:induction false} WithoutAbsent(rows: seq<Follow>, f: Follow)
    requires f !in rows
    ensures Without(rows, f) == rows
  {
    forall g | g in rows ensures Other(f)(g) { }
    FilterAll(rows, Other(f));
  }

  /** Removing `f` from a table that starts with `f` drops that first row. */
  lemma WithoutHead(rows: seq<Follow>, f: Follow)
    ensures Without([f] + rows, f) == Without(rows, f)
  {
    assert ([f] + rows)[0] == f && ([f] + rows)[1..] == rows;
  }

  /** Deleting the one row `f` found at position i is the table without `f`. */
  lemma DeleteRow(rows: seq<Follow>, i: nat, f: Follow)
    requires Unique(rows) && i < |rows| && rows[i] == f
    ensures rows[..i] + rows[i + 1..] == Without(rows, f)
    ensures |Without(rows, f)| == |rows| - 1
  {
    var pre, post := rows[..i], rows[i + 1..];
    assert rows == pre + ([f] + post);
    assert f !in pre by {
      forall k | 0 <= k < i ensures rows[k] != f { assert rows[k] != rows[i]; }
    }
    assert f !in post by {
      forall k | i + 1 <= k < |rows| ensures rows[k] != f { assert rows[i] != rows[k]; }
    }
    FilterAppend(pre, [f] + post, Other(f));
    WithoutHead(post, f);
    WithoutAbsent(pre, f);
    WithoutAbsent(post, f);
  }

  /** Unfollowing right after a first follow gives back the table as it was. */
  lemma FollowThenUnfollow(rows: seq<Follow>, u: UserName, a: UserName)
    requires u != a && Follow(u, a) !in rows
    ensures Without(AfterFollow(rows, u, a), Follow(u, a)) == rows
  {
    FilterAppend(rows, [Follow(u, a)], Other(Follow(u, a)));
    assert Without([Follow(u, a)], Follow(u, a)) == [] by {
      assert [Follow(u, a)][1..] == [];
    }
    WithoutAbsent(rows, Follow(u, a));
  }

  /** Removing a row keeps the table free of repeated rows and of self-follows. */
  lemma DeleteKeepsValid(rows: seq<Follow>, i: nat)
    requires Unique(rows) && NoSelf(rows) && i < |rows|
    ensures Unique(rows[..i] + rows[i + 1..]) && NoSelf(rows[..i] + rows[i + 1..])
  {
  }

  // ---------------------------------------------------------------------------
  // The following feed

  /** The `author` column of a list of rows, in order. */
  function Authors(rows: seq<Follow>): (r: seq<UserName>)
    ensures |r| == |rows|
    ensures forall k :: 0 <= k < |rows| ==> r[k] == rows[k].author
  {
    if rows == [] then [] else Authors(rows[..|rows| - 1]) + [rows[|rows| - 1].author]
  }

  /** `request.user.follower.all()` mapped to authors: whom `u` follows.
      The authors collected are exactly those `u` has a row for. */
  function FollowedBy(rows: seq<Follow>, u: UserName): (r: seq<UserName>)
    ensures forall a :: a in r <==> Follow(u, a) in rows
  {
    var mine := Filter(rows, RowsOf(u));
    assert forall a :: a in Authors(mine) <==> Follow(u, a) in rows by {
      forall a ensures a in Authors(mine) <==> Follow(u, a) in rows {
        if a in Authors(mine) {
          var k :| 0 <= k < |mine| && Authors(mine)[k] == a;
          assert mine[k] in mine;
          assert RowsOf(u)(mine[k]);
          assert mine[k] == Follow(u, a);
        }
        if Follow(u, a) in rows {
          assert RowsOf(u)(Follow(u, a));
          var k :| 0 <= k < |mine| && mine[k] == Follow(u, a);
          assert Authors(mine)[k] == a;
        }
      }
    }
    Authors(mine)
  }

  /** `Post.objects.filter(author__in=authors_list)` for the viewer `u`: exactly
      the posts whose author `u` follows, in the order of the post table. */
  function FollowFeed(posts: seq<Post>, rows: seq<Follow>, u: UserName): (r: seq<Post>)
    ensures forall p :: p in r <==> p in posts && Follow(u, p.author) in rows
  {
    Filter(posts, ByAnyOf(FollowedBy(rows, u)))
  }

  /** A new post by a followed author is appended to the follower's feed; a new
      post by anyone else leaves it as it was. */
  lemma NewPostInFollowFeed(posts: seq<Post>, rows: seq<Follow>, u: UserName, p: Post)
    ensures FollowFeed(posts + [p], rows, u)
         == FollowFeed(posts, rows, u) + (if Follow(u, p.author) in rows then [p] else [])
  {
    FilterAppend(posts, [p], ByAnyOf(FollowedBy(rows, u)));
    assert [p][1..] == [];
  }
}
