/** The blog store and the views that read and change it. Each view takes the
    requesting user and the parsed request parameters and returns what the
    view renders, or the error it ends in; a view that changes rows is a
    method of the store. */
module Views {
  import opened Wrappers
  import opened Paging
  import opened Tables

  /** Context of the profile page. */
  datatype ProfilePage = ProfilePage(author: UserName, count: nat, page: Page<Post>, following: bool)

  /** Context of a group page. */
  datatype GroupPage = GroupPage(group: Slug, page: Page<Post>)

  /** Context of a single post's page. */
  datatype PostPage = PostPage(author: UserName, post: Post, count: nat, comments: seq<Comment>)

  /** Request to the post with a given primary key and author. */
  function Addressed(id: nat, a: UserName): Post -> bool
  {
    (p: Post) => p.id == id && p.author == a
  }

  class Blog {
    /** Registered usernames and group slugs (maintained outside these views). */
    var users: set<UserName>
    var groups: set<Slug>
    /** The Post, Comment and Follow tables, in insertion order. */
    var posts: seq<Post>
    var comments: seq<Comment>
    var follows: seq<Follow>
    /** The primary key the next post receives. */
    var nextId: nat

    /** Table invariants: each (user, author) pair once, no self-follow,
        distinct post keys below `nextId`, and every comment on a stored post. */
    ghost predicate Valid()
      reads this
    {
      Unique(follows) && NoSelf(follows) && UniqueIds(posts)
      && (forall p :: p in posts ==> p.id < nextId)
      && (forall c :: c in comments ==> c.post in PostIds(posts))
    }

    /** The follow relation as a set of (user, author) edges. */
    ghost function Edges(): set<Follow>
      reads this
    {
      set f | f in follows
    }

    constructor (users: set<UserName>, groups: set<Slug>)
      ensures Valid()
      ensures this.users == users && this.groups == groups
      ensures posts == [] && comments == [] && follows == [] && nextId == 1
    {
      this.users := users;
      this.groups := groups;
      posts, comments, follows := [], [], [];
      nextId := 1;
    }

    /** `index`: the requested page of all posts. */
    function Index(requested: Option<int>): (page: Page<Post>)
      reads this
      ensures page.numPages == NumPages(|posts|) && 1 <= page.number <= page.numPages
      ensures page.number == PageNumber(|posts|, requested)
      ensures page.objects == Slice(posts, page.number)
      ensures forall p :: p in page.objects ==> p in posts
    {
      GetPage(posts, requested)
    }

    /** `group_posts`: the group's page, NotFound for an unknown slug. */
    function GroupPosts(slug: Slug, requested: Option<int>): (r: Result<GroupPage, Error>)
      reads this
      ensures r.Err? <==> slug !in groups
      ensures r.Err? ==> r.error == NotFound
      ensures r.Ok? ==> r.value.group == slug && r.value.page == GetPage(GroupFeed(posts, slug), requested)
      ensures r.Ok? ==> forall p :: p in r.value.page.objects ==> p in posts && p.group == Some(slug)
      ensures r.Ok? && (forall p :: p in posts ==> p.group != Some(slug)) ==> r.value.page.objects == []
    {
      if slug !in groups then Err(NotFound)
      else
        var feed := GroupFeed(posts, slug);
        assert (forall p :: p in posts ==> p.group != Some(slug)) ==> feed == [] by {
          if forall p :: p in posts ==> p.group != Some(slug) {
            EmptyGroup(posts, slug);
          }
        }
        Ok(GroupPage(slug, GetPage(feed, requested)))
    }

    /** `profile` as written: the follow test filters the Follow table by
        `request.user`, which for an anonymous visitor is not a user row, so the
        query raises and the visitor gets the 500 page. A member gets the page
        of `GuestSafeProfile`. */
    function Profile(viewer: Viewer, username: UserName, requested: Option<int>): (r: Result<ProfilePage, Error>)
      reads this
      ensures r == Err(NotFound) <==> username !in users
      ensures r == Err(ServerError) <==> viewer.Anonymous? && username in users
      ensures r.Ok? <==> viewer.Member? && username in users
      ensures viewer.Member? ==> r == GuestSafeProfile(viewer, username, requested)
    {
      if viewer.Anonymous? && username in users then Err(ServerError)
      else GuestSafeProfile(viewer, username, requested)
    }

    /** `profile` as its tests expect it: the author's page, how many posts
        they have, and whether the viewer follows them (never, for an anonymous
        visitor); NotFound for an unknown username. */
    function GuestSafeProfile(viewer: Viewer, username: UserName, requested: Option<int>): (r: Result<ProfilePage, Error>)
      reads this
      ensures r.Err? <==> username !in users
      ensures r.Err? ==> r.error == NotFound
      ensures r.Ok? ==> r.value.author == username && r.value.page == GetPage(AuthorPosts(posts, username), requested)
      ensures r.Ok? ==> r.value.count == |AuthorPosts(posts, username)|
      ensures r.Ok? ==> forall p :: p in r.value.page.objects ==> p in posts && p.author == username
      ensures r.Ok? ==> (r.value.following <==> viewer.Member? && Follow(viewer.name, username) in follows)
      ensures r.Ok? && NoSelf(follows) && viewer == Member(username) ==> !r.value.following
    {
      if username !in users then Err(NotFound)
      else
        var feed := AuthorPosts(posts, username);
        var following := viewer.Member? && Filter(follows, Is(Follow(viewer.name, username))) != [];
        assert viewer.Member? && Follow(viewer.name, username) in follows ==> following by {
          if viewer.Member? && Follow(viewer.name, username) in follows {
            assert Is(Follow(viewer.name, username))(Follow(viewer.name, username));
          }
        }
        assert following ==> Follow(viewer.name, username) in follows by {
          if following {
            var rows := Filter(follows, Is(Follow(viewer.name, username)));
            assert rows[0] in rows;
          }
        }
        Ok(ProfilePage(username, |feed|, GetPage(feed, requested), following))
    }

    /** `post_view`: the post with that key and author, with its comments and
        the author's post count; NotFound when no post matches both. */
    function PostView(username: UserName, postId: nat): (r: Result<PostPage, Error>)
      reads this
      ensures r.Err? <==> forall p :: p in posts ==> !(p.id == postId && p.author == username)
      ensures r.Err? ==> r.error == NotFound
      ensures r.Ok? ==> r.value.post in posts && r.value.post.id == postId && r.value.post.author == username
      ensures r.Ok? ==> r.value.author == username && r.value.count == |AuthorPosts(posts, username)|
      ensures r.Ok? ==> forall c :: c in r.value.comments <==> c in comments && c.post == postId
      ensures r.Ok? ==> r.value.comments == PostComments(comments, postId)
    {
      match FirstIndex(posts, Addressed(postId, username))
      case None =>
        assert forall p :: p in posts ==> !(p.id == postId && p.author == username) by {
          forall p | p in posts ensures !(p.id == postId && p.author == username) {
            var j :| 0 <= j < |posts| && posts[j] == p;
            assert !Addressed(postId, username)(posts[j]);
          }
        }
        Err(NotFound)
      case Some(i) =>
        var post := posts[i];
        assert Addressed(postId, username)(post);
        Ok(PostPage(post.author, post, |AuthorPosts(posts, post.author)|, PostComments(comments, post.id)))
    }

    /** `follow_index`: the requested page of posts by authors the viewer
        follows. The authors are collected row by row from the viewer's
        follow rows. */
    method FollowIndex(viewer: Viewer, requested: Option<int>) returns (r: Result<Page<Post>, Error>)
      ensures r.Err? <==> viewer.Anonymous?
      ensures r.Err? ==> r.error == AuthRequired
      ensures r.Ok? ==> r.value == GetPage(FollowFeed(posts, follows, viewer.name), requested)
      ensures r.Ok? ==> forall p :: p in r.value.objects ==> p in posts && Follow(viewer.name, p.author) in follows
    {
      if viewer.Anonymous? {
        return Err(AuthRequired);
      }
      var mine := Filter(follows, RowsOf(viewer.name));
      var authors: seq<UserName> := [];
      var i := 0;
      while i < |mine|
        invariant 0 <= i <= |mine|
        invariant authors == Authors(mine[..i])
      {
        assert mine[..i + 1][..i] == mine[..i];
        authors := authors + [mine[i].author];
        i := i + 1;
      }
      assert mine[..i] == mine;
      var feed := Filter(posts, ByAnyOf(authors));
      r := Ok(GetPage(feed, requested));
    }

    /** `profile_follow`: the viewer starts following `username`, unless that is
        the viewer or the edge already exists. */
    method ProfileFollow(viewer: Viewer, username: UserName) returns (r: Result<(), Error>)
      requires Valid()
      modifies this`follows
      ensures Valid()
      ensures viewer.Anonymous? ==> r == Err(AuthRequired)
      ensures viewer.Member? && username !in users ==> r == Err(NotFound)
      ensures viewer.Member? && username in users ==> r == Ok(())
      ensures r.Err? ==> follows == old(follows)
      ensures r.Ok? ==> follows == AfterFollow(old(follows), viewer.name, username)
      ensures r.Ok? ==> Edges() == old(Edges()) + (if viewer.name != username then {Follow(viewer.name, username)} else {})
    {
      if viewer.Anonymous? {
        return Err(AuthRequired);
      }
      if username !in users {
        return Err(NotFound);
      }
      var edge := Follow(viewer.name, username);
      FollowKeepsValid(follows, viewer.name, username);
      if viewer.name != username && edge !in follows {
        follows := follows + [edge];
      }
      r := Ok(());
    }

    /** `profile_unfollow`: the viewer's edge to `username` is looked up with
        `.get` (DoesNotExist when absent) and deleted. */
    method ProfileUnfollow(viewer: Viewer, username: UserName) returns (r: Result<(), Error>)
      requires Valid()
      modifies this`follows
      ensures Valid()
      ensures viewer.Anonymous? ==> r == Err(AuthRequired)
      ensures viewer.Member? && username !in users ==> r == Err(NotFound)
      ensures viewer.Member? && username in users ==>
        r == (if Follow(viewer.name, username) in old(follows) then Ok(()) else Err(DoesNotExist))
      ensures viewer == Member(username) && username in users ==> r == Err(DoesNotExist)
      ensures r.Err? ==> follows == old(follows)
      ensures r.Ok? ==> follows == Without(old(follows), Follow(viewer.name, username))
      ensures r.Ok? ==> |follows| == |old(follows)| - 1
      ensures r.Ok? ==> Edges() == old(Edges()) - {Follow(viewer.name, username)}
    {
      if viewer.Anonymous? {
        return Err(AuthRequired);
      }
      if username !in users {
        return Err(NotFound);
      }
      var edge := Follow(viewer.name, username);
      var row := GetRow(follows, edge);
      GetUnique(follows, edge);
      if row.Err? {
        return Err(row.error);
      }
      if viewer.name != username && edge in follows {
        DeleteRow(follows, row.value, edge);
        DeleteKeepsValid(follows, row.value);
        follows := follows[..row.value] + follows[row.value + 1..];
      }
      r := Ok(());
    }

    /** `new_post`: a valid form becomes a new post by the viewer, appended to
        the table under the next key. */
    method NewPost(viewer: Viewer, form: PostForm, valid: bool) returns (r: Result<(), Error>)
      requires Valid()
      modifies this`posts, this`nextId
      ensures Valid()
      ensures viewer.Anonymous? ==> r == Err(AuthRequired)
      ensures viewer.Member? && !valid ==> r == Err(FormInvalid)
      ensures viewer.Member? && valid ==> r == Ok(())
      ensures r.Err? ==> posts == old(posts) && nextId == old(nextId)
      ensures r.Ok? ==> nextId == old(nextId) + 1
      ensures r.Ok? ==> posts == old(posts) + [Post(old(nextId), viewer.name, form.text, form.group, form.image)]
      ensures r.Ok? ==> |AuthorPosts(posts, viewer.name)| == |AuthorPosts(old(posts), viewer.name)| + 1
    {
      if viewer.Anonymous? {
        return Err(AuthRequired);
      }
      if !valid {
        return Err(FormInvalid);
      }
      var post := Post(nextId, viewer.name, form.text, form.group, form.image);
      NewPostInFeeds(posts, post, viewer.name);
      assert PostIds(posts + [post]) == PostIds(posts) + {post.id};
      posts := posts + [post];
      nextId := nextId + 1;
      r := Ok(());
    }

    /** `post_edit`: the post with key `postId` takes the form's fields, but
        only when the viewer is its author and the form is valid. The
        username in the address is not consulted. */
    method PostEdit(viewer: Viewer, username: UserName, postId: nat, form: PostForm, valid: bool)
      returns (r: Result<(), Error>)
      requires Valid()
      modifies this`posts
      ensures Valid()
      ensures viewer.Anonymous? ==> r == Err(AuthRequired)
      ensures r == Err(NotFound) <==> viewer.Member? && postId !in PostIds(old(posts))
      ensures r == Err(NotOwner) <==>
        viewer.Member? && exists p :: p in old(posts) && p.id == postId && !CanEdit(viewer, p)
      ensures r == Err(FormInvalid) <==> !valid && exists p :: p in old(posts) && p.id == postId && CanEdit(viewer, p)
      ensures r.Ok? <==> valid && exists p :: p in old(posts) && p.id == postId && CanEdit(viewer, p)
      ensures r.Err? ==> posts == old(posts)
      ensures |posts| == |old(posts)|
      ensures forall j :: 0 <= j < |posts| ==>
        posts[j] == if r.Ok? && old(posts)[j].id == postId then Revise(old(posts)[j], form) else old(posts)[j]
    {
      if viewer.Anonymous? {
        return Err(AuthRequired);
      }
      var found := FindPost(posts, postId);
      if found.None? {
        return Err(NotFound);
      }
      var i := found.value;
      assert posts[i] in posts;
      if posts[i].author != viewer.name {
        return Err(NotOwner);
      }
      if !valid {
        return Err(FormInvalid);
      }
      var edited := posts[i := Revise(posts[i], form)];
      assert PostIds(edited) == PostIds(posts) by {
        forall p | p in edited ensures p.id in PostIds(posts) {
          var j :| 0 <= j < |edited| && edited[j] == p;
          assert posts[j] in posts;
        }
        forall p | p in posts ensures p.id in PostIds(edited) {
          var j :| 0 <= j < |posts| && posts[j] == p;
          assert edited[j] in edited;
        }
      }
      assert forall p :: p in edited ==> p.id < nextId by {
        forall p | p in edited ensures p.id < nextId {
          var j :| 0 <= j < |edited| && edited[j] == p;
          assert posts[j] in posts;
        }
      }
      posts := edited;
      r := Ok(());
    }

    /** `add_comment`: a valid comment by the viewer is attached to the post
        with key `postId`; the username in the address is not consulted. */
    method AddComment(viewer: Viewer, username: UserName, postId: nat, text: string, valid: bool)
      returns (r: Result<(), Error>)
      requires Valid()
      modifies this`comments
      ensures Valid()
      ensures viewer.Anonymous? ==> r == Err(AuthRequired)
      ensures viewer.Member? && postId !in PostIds(posts) ==> r == Err(NotFound)
      ensures viewer.Member? && postId in PostIds(posts) && !valid ==> r == Err(FormInvalid)
      ensures r.Ok? <==> viewer.Member? && postId in PostIds(posts) && valid
      ensures r.Err? ==> comments == old(comments)
      ensures r.Ok? ==> comments == old(comments) + [Comment(postId, viewer.name, text)]
      ensures r.Ok? ==> PostComments(comments, postId) == PostComments(old(comments), postId) + [Comment(postId, viewer.name, text)]
    {
      if viewer.Anonymous? {
        return Err(AuthRequired);
      }
      var found := FindPost(posts, postId);
      if found.None? {
        return Err(NotFound);
      }
      if !valid {
        return Err(FormInvalid);
      }
      var comment := Comment(postId, viewer.name, text);
      FilterAppend(comments, [comment], OnPost(postId));
      assert [comment][1..] == [];
      comments := comments + [comment];
      r := Ok(());
    }
  }

  /** An anonymous visitor of an existing profile gets the 500 page from the
      code as written, where the page with the follow flag unset is expected. */
  lemma GuestProfileFails(b: Blog, username: UserName, requested: Option<int>)
    requires username in b.users
    ensures b.Profile(Anonymous, username, requested) == Err(ServerError)
    ensures b.GuestSafeProfile(Anonymous, username, requested).Ok?
    ensures !b.GuestSafeProfile(Anonymous, username, requested).value.following
  {
  }
}
