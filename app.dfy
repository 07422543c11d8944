/**
 * The post list of js/app.js: the page `state` record, how `loadInitialPosts`
 * and `loadMorePosts` update it, the comment list of a post and the display
 * fallbacks for authors and reactions.
 */
module PostList {
  import opened Wrappers
  import opened Api
  import opened HtmlEscape
  import opened Text

  // ---------------------------------------------------------------------------
  // Entities, as the API delivers them

  /** A user; `None` is a `username` that is missing or `null`. */
  datatype User = User(id: nat, username: Option<string>)

  /** The user embedded in a comment; `None` is a `username` that is missing or `null`. */
  datatype CommentUser = CommentUser(username: Option<string>)

  /** A comment; `None` is a `user` that is missing or `null`. */
  datatype Comment = Comment(id: nat, postId: nat, body: string, user: Option<CommentUser>)

  /**
   * A JSON value as a post's `reactions` field can hold it: `undefined` (the
   * field is missing), `null`, a boolean, a number, a string, or an object
   * (an array too), of which only the `likes` property matters here.
   */
  datatype JsValue = Undefined | Null | Bool(b: bool) | Number(n: int) | Str(s: string) | Object(likes: JsValue)

  /** JavaScript truthiness: `undefined`, `null`, `false`, 0 and "" are falsy, every object is truthy. */
  predicate Truthy(v: JsValue) {
    match v
    case Undefined => false
    case Null => false
    case Bool(b) => b
    case Number(n) => n != 0
    case Str(s) => s != ""
    case Object(_) => true
  }

  datatype Post = Post(id: nat, userId: nat, title: string, body: string, tags: seq<string>, reactions: JsValue)

  // ---------------------------------------------------------------------------
  // Display fallbacks

  /**
   * The reactions a post card shows: `likes` of an object whose `likes` is not
   * `undefined` (even when it is `null`), otherwise the value itself when it is
   * truthy, and 0 when it is falsy.
   */
  function ShownReactions(r: JsValue): (s: JsValue)
    ensures r.Object? && r.likes != Undefined ==> s == r.likes
    ensures r.Object? && r.likes == Undefined ==> s == r
    ensures !r.Object? && Truthy(r) ==> s == r
    ensures !Truthy(r) ==> s == Number(0)
  {
    if Truthy(r) && r.Object? && r.likes != Undefined then r.likes
    else if Truthy(r) then r
    else Number(0)
  }

  /**
   * The card never shows `undefined`; it shows `null` exactly for `{likes: null}`;
   * a falsy value other than 0 is shown only as an object's `likes`; and
   * showing a truthy shown value again changes nothing unless that value is
   * itself an object carrying `likes`.
   */
  lemma ShownReactionsFacts(r: JsValue)
    ensures ShownReactions(r) != Undefined
    ensures ShownReactions(r) == Null <==> r == Object(Null)
    ensures !Truthy(ShownReactions(r)) ==>
              ShownReactions(r) == Number(0) || (r.Object? && r.likes == ShownReactions(r))
    ensures Truthy(ShownReactions(r)) && !(ShownReactions(r).Object? && ShownReactions(r).likes != Undefined) ==>
              ShownReactions(ShownReactions(r)) == ShownReactions(r)
  {
    if r.Object? && r.likes != Undefined {
      assert ShownReactions(r) == r.likes;
    }
  }

  const UnknownAuthor := "Ok\U{00E4}nd"
  const NoCommentAuthor := "N/A"

  /** The author shown on a post card: the user's username when there is a user with a non-empty one, else "Okänd". */
  function AuthorName(usersById: map<nat, User>, userId: nat): (r: string)
    ensures r != ""
    ensures r != UnknownAuthor ==> userId in usersById && usersById[userId].username == Some(r)
  {
    if userId in usersById && usersById[userId].username.Some? && usersById[userId].username.value != ""
    then usersById[userId].username.value
    else UnknownAuthor
  }

  /** With a user indexed under the id, the card shows that user's name unless it is missing or empty. */
  lemma AuthorNameOfIndexed(usersById: map<nat, User>, userId: nat, name: string)
    requires userId in usersById && usersById[userId].username == Some(name)
    ensures AuthorName(usersById, userId) == if name == "" then UnknownAuthor else name
  {
  }

  /** The author shown on a comment: the comment user's username (absent when the user has none), or "N/A" without a user. */
  function CommentAuthor(c: Comment): (r: Option<string>)
    ensures c.user.None? ==> r == Some(NoCommentAuthor)
    ensures c.user.Some? ==> r == c.user.value.username
  {
    if c.user.Some? then c.user.value.username else Some(NoCommentAuthor)
  }

  // ---------------------------------------------------------------------------
  // Indexes

  /** `usersById` built from `users` in order: each id maps to the last user carrying it. */
  function UserIndex(users: seq<User>): (r: map<nat, User>)
    ensures forall id :: id in r <==> exists j :: 0 <= j < |users| && users[j].id == id
    ensures forall id :: id in r ==> r[id].id == id
  {
    if users == [] then map[]
    else
      var last := users[|users| - 1];
      var r := UserIndex(users[..|users| - 1])[last.id := last];
      assert forall j :: 0 <= j < |users| - 1 ==> users[..|users| - 1][j] == users[j];
      r
  }

  /** The last duplicate wins: an id maps to the user at the highest index that carries it. */
  lemma {:induction false} UserIndexLastWins(users: seq<User>, j: nat)
    requires j < |users|
    requires forall k :: j < k < |users| ==> users[k].id != users[j].id
    ensures UserIndex(users)[users[j].id] == users[j]
    decreases |users|
  {
    var n := |users| - 1;
    if j < n {
      var init := users[..n];
      assert init[j] == users[j];
      assert forall k :: j < k < |init| ==> init[k] == users[k];
      UserIndexLastWins(init, j);
    }
  }

  /** `allComments.filter(c => c.postId === postId)`. */
  function CommentsOf(all: seq<Comment>, postId: nat): (r: seq<Comment>)
    ensures |r| <= |all|
    ensures forall c :: c in r <==> c in all && c.postId == postId
  {
    if all == [] then []
    else (if all[0].postId == postId then [all[0]] else []) + CommentsOf(all[1..], postId)
  }

  /** Filtering keeps the original order: it distributes over concatenation. */
  lemma {:induction false} CommentsOfAppend(a: seq<Comment>, b: seq<Comment>, postId: nat)
    ensures CommentsOf(a + b, postId) == CommentsOf(a, postId) + CommentsOf(b, postId)
    decreases |a|
  {
    if a == [] {
      assert a + b == b;
    } else {
      assert (a + b)[0] == a[0];
      assert (a + b)[1..] == a[1..] + b;
      CommentsOfAppend(a[1..], b, postId);
    }
  }

  /** The comments of one post, whatever else is in the list, come out as they stand. */
  lemma {:induction false} CommentsOfAllMatching(all: seq<Comment>, postId: nat)
    requires forall k :: 0 <= k < |all| ==> all[k].postId == postId
    ensures CommentsOf(all, postId) == all
    decreases |all|
  {
    if all != [] {
      CommentsOfAllMatching(all[1..], postId);
    }
  }

  /** The ids of `posts`. */
  function PostIds(posts: seq<Post>): set<nat> {
    set k | 0 <= k < |posts| :: posts[k].id
  }

  /** The comment index entries written for `posts`: each post id maps to its filtered comments. */
  function CommentIndex(all: seq<Comment>, posts: seq<Post>): (r: map<nat, seq<Comment>>)
    ensures forall k :: 0 <= k < |posts| ==> posts[k].id in r && r[posts[k].id] == CommentsOf(all, posts[k].id)
    ensures forall id :: id in r ==> exists k :: 0 <= k < |posts| && posts[k].id == id
  {
    map id | id in PostIds(posts) :: CommentsOf(all, id)
  }

  /** Every post in `posts` is indexed with its comments filtered from `all`. */
  ghost predicate Indexed(posts: seq<Post>, index: map<nat, seq<Comment>>, all: seq<Comment>) {
    forall k :: 0 <= k < |posts| ==>
      posts[k].id in index && index[posts[k].id] == CommentsOf(all, posts[k].id)
  }

  /**
   * Adding the index of a new page keeps the earlier posts' entries and makes
   * the old and the new posts together indexed.
   */
  lemma IndexedExtend(posts: seq<Post>, index: map<nat, seq<Comment>>, all: seq<Comment>, newPosts: seq<Post>)
    requires Indexed(posts, index, all)
    ensures Indexed(posts + newPosts, index + CommentIndex(all, newPosts), all)
    ensures forall k :: 0 <= k < |posts| ==> (index + CommentIndex(all, newPosts))[posts[k].id] == index[posts[k].id]
  {
    var added := CommentIndex(all, newPosts);
    var both := posts + newPosts;
    forall k | 0 <= k < |both|
      ensures both[k].id in index + added && (index + added)[both[k].id] == CommentsOf(all, both[k].id)
    {
      if k >= |posts| {
        assert both[k] == newPosts[k - |posts|];
      }
    }
  }

  lemma CommentIndexStep(all: seq<Comment>, posts: seq<Post>, i: nat)
    requires i < |posts|
    ensures CommentIndex(all, posts[..i + 1])
            == CommentIndex(all, posts[..i])[posts[i].id := CommentsOf(all, posts[i].id)]
  {
    var pre, next := posts[..i], posts[..i + 1];
    assert forall k :: 0 <= k < i ==> next[k] == pre[k];
    assert next[i] == posts[i];
    assert PostIds(next) == PostIds(pre) + {posts[i].id};
  }

  /** Updating a union at a key updates its right operand there. */
  lemma UnionUpdate<K, V>(a: map<K, V>, b: map<K, V>, k: K, v: V)
    ensures (a + b)[k := v] == a + b[k := v]
  {
  }

  lemma UserIndexStep(users: seq<User>, i: nat)
    requires i < |users|
    ensures UserIndex(users[..i + 1]) == UserIndex(users[..i])[users[i].id := users[i]]
  {
    assert users[..i + 1][..i] == users[..i];
  }

  // ---------------------------------------------------------------------------
  // The comment list of a post card

  const MutedOpen := "<p class=\"muted\">"

  /** The placeholder shown for a post without comments. */
  const NoComments := MutedOpen + "Inga kommentarer tillg\U{00E4}ngliga.</p>"

  const CommentOpen := "<div class=\"comment\"><strong>"

  /** The placeholder is a muted paragraph, not a comment `div`. */
  lemma PlaceholderIsNoComment()
    ensures !StartsWith(NoComments, CommentOpen)
  {
    assert MutedOpen[1] == 'p' && CommentOpen[1] == 'd';
    assert NoComments[1] == MutedOpen[1];
    DiffersAt(NoComments, CommentOpen, 1);
  }

  /** The markup of one comment, author and body escaped. */
  function CommentHtml(c: Comment): string {
    CommentOpen + EscapeHtml(CommentAuthor(c)) + "</strong>: " + EscapeHtml(Some(c.body)) + "</div>"
  }

  /** The markup of the comments in order. */
  function CommentsHtml(list: seq<Comment>): string {
    if list == [] then "" else CommentsHtml(list[..|list| - 1]) + CommentHtml(list[|list| - 1])
  }

  lemma CommentsHtmlAppend(list: seq<Comment>, i: nat)
    requires i < |list|
    ensures CommentsHtml(list[..i + 1]) == CommentsHtml(list[..i]) + CommentHtml(list[i])
  {
    assert list[..i + 1][..i] == list[..i];
  }

  /** One comment's markup starts with the opening of a comment `div`. */
  lemma CommentHtmlStart(c: Comment)
    ensures StartsWith(CommentHtml(c), CommentOpen)
  {
    var s1 := CommentOpen + EscapeHtml(CommentAuthor(c));
    StartsWithAppend(CommentOpen, CommentOpen, EscapeHtml(CommentAuthor(c)));
    var s2 := s1 + "</strong>: ";
    StartsWithAppend(s1, CommentOpen, "</strong>: ");
    var s3 := s2 + EscapeHtml(Some(c.body));
    StartsWithAppend(s2, CommentOpen, EscapeHtml(Some(c.body)));
    StartsWithAppend(s3, CommentOpen, "</div>");
  }

  /** Rendered comments start with the opening of a comment `div`. */
  lemma {:induction false} CommentsHtmlStart(list: seq<Comment>)
    requires list != []
    ensures StartsWith(CommentsHtml(list), CommentOpen)
    decreases |list|
  {
    var init := list[..|list| - 1];
    var last := CommentHtml(list[|list| - 1]);
    assert CommentsHtml(list) == CommentsHtml(init) + last;
    if init != [] {
      CommentsHtmlStart(init);
      StartsWithAppend(CommentsHtml(init), CommentOpen, last);
    } else {
      CommentHtmlStart(list[|list| - 1]);
      assert CommentsHtml(init) + last == last;
    }
  }

  // ---------------------------------------------------------------------------
  // The page state

  /** The `state` record of the post list, with the load-more button's `disabled` flag. */
  class PostListState {
    var posts: seq<Post>
    var commentsByPost: map<nat, seq<Comment>>
    var usersById: map<nat, User>
    var postsSkip: nat
    const postsLimit: nat
    var postsTotal: int
    var allComments: seq<Comment>
    var loadMoreDisabled: bool

    /** Every loaded post has its comments indexed, filtered from all comments. */
    ghost predicate Valid()
      reads this
    {
      Indexed(posts, commentsByPost, allComments)
    }

    /** The state before any load. */
    constructor ()
      ensures Valid()
      ensures posts == [] && commentsByPost == map[] && usersById == map[] && allComments == []
      ensures postsSkip == 0 && postsLimit == 8 && postsTotal == 0 && !loadMoreDisabled
    {
      posts := [];
      commentsByPost := map[];
      usersById := map[];
      postsSkip := 0;
      postsLimit := 8;
      postsTotal := 0;
      allComments := [];
      loadMoreDisabled := false;
    }

    /** `state.usersById[u.id] = u` for each user in order. */
    method IndexUsers(users: seq<User>)
      modifies this
      ensures usersById == old(usersById) + UserIndex(users)
      ensures posts == old(posts) && commentsByPost == old(commentsByPost) && allComments == old(allComments)
      ensures postsSkip == old(postsSkip) && postsTotal == old(postsTotal) && loadMoreDisabled == old(loadMoreDisabled)
    {
      var i := 0;
      while i < |users|
        invariant 0 <= i <= |users|
        invariant usersById == old(usersById) + UserIndex(users[..i])
        invariant posts == old(posts) && commentsByPost == old(commentsByPost) && allComments == old(allComments)
        invariant postsSkip == old(postsSkip) && postsTotal == old(postsTotal) && loadMoreDisabled == old(loadMoreDisabled)
      {
        UserIndexStep(users, i);
        UnionUpdate(old(usersById), UserIndex(users[..i]), users[i].id, users[i]);
        usersById := usersById[users[i].id := users[i]];
        i := i + 1;
      }
      assert users[..i] == users;
    }

    /** `state.commentsByPost[postId] = allComments.filter(...)` for each post of `newPosts`. */
    method IndexComments(newPosts: seq<Post>)
      modifies this
      ensures commentsByPost == old(commentsByPost) + CommentIndex(allComments, newPosts)
      ensures posts == old(posts) && usersById == old(usersById) && allComments == old(allComments)
      ensures postsSkip == old(postsSkip) && postsTotal == old(postsTotal) && loadMoreDisabled == old(loadMoreDisabled)
    {
      var i := 0;
      while i < |newPosts|
        invariant 0 <= i <= |newPosts|
        invariant commentsByPost == old(commentsByPost) + CommentIndex(allComments, newPosts[..i])
        invariant posts == old(posts) && usersById == old(usersById) && allComments == old(allComments)
        invariant postsSkip == old(postsSkip) && postsTotal == old(postsTotal) && loadMoreDisabled == old(loadMoreDisabled)
      {
        var postId := newPosts[i].id;
        CommentIndexStep(allComments, newPosts, i);
        UnionUpdate(old(commentsByPost), CommentIndex(allComments, newPosts[..i]), postId, CommentsOf(allComments, postId));
        commentsByPost := commentsByPost[postId := CommentsOf(allComments, postId)];
        i := i + 1;
      }
      assert newPosts[..i] == newPosts;
    }

    /**
     * `loadInitialPosts`: the users, the first posts page (at the current skip)
     * and the comments arrive together; if any of them failed, or the page has
     * no `posts`, nothing changes. Otherwise the users are indexed, the posts
     * replace the list, the skip advances past them, their comments are indexed,
     * and the button is disabled when the skip has reached the total.
     */
    method LoadInitial(users: Result<seq<User>, FetchError>, net: Network<Body<Post>>,
                       comments: Result<seq<Comment>, FetchError>) returns (loaded: bool)
      requires Valid()
      modifies this
      ensures Valid()
      ensures var page := FetchPage(net, Posts, Some(postsLimit), Some(old(postsSkip)));
              loaded <==> users.Success? && comments.Success? && page.Success? && page.value.items.Some?
      ensures !loaded ==> posts == old(posts) && commentsByPost == old(commentsByPost) && usersById == old(usersById)
                          && allComments == old(allComments) && postsSkip == old(postsSkip)
                          && postsTotal == old(postsTotal) && loadMoreDisabled == old(loadMoreDisabled)
      ensures loaded ==>
                var page := FetchPage(net, Posts, Some(postsLimit), Some(old(postsSkip))).value;
                && usersById == old(usersById) + UserIndex(users.value)
                && allComments == comments.value
                && postsTotal == (if page.total.Some? then page.total.value else 0)
                && posts == page.items.value
                && postsSkip == old(postsSkip) + |posts|
                && commentsByPost == old(commentsByPost) + CommentIndex(allComments, posts)
                && loadMoreDisabled == (old(loadMoreDisabled) || postsSkip >= postsTotal)
      ensures old(postsSkip) == 0 && loaded ==> postsSkip == |posts|
    {
      var postsData := FetchPage(net, Posts, Some(postsLimit), Some(postsSkip));
      if users.Failure? || comments.Failure? || postsData.Failure? || postsData.value.items.None? {
        return false;
      }
      IndexUsers(users.value);
      allComments := comments.value;
      postsTotal := if postsData.value.total.Some? then postsData.value.total.value else 0;
      posts := postsData.value.items.value;
      postsSkip := postsSkip + |posts|;
      IndexedExtend([], commentsByPost, allComments, posts);
      assert [] + posts == posts;
      IndexComments(posts);
      if postsSkip >= postsTotal {
        loadMoreDisabled := true;
      }
      loaded := true;
    }

    /**
     * `loadMorePosts`: fetch the next page at the current skip. On success its
     * posts (none when the page lacks `posts`) are appended, the skip advances by
     * their number and their comments are indexed; on failure the list stays as
     * it was. Either way the button ends up disabled exactly when the skip has
     * reached the total, which a load-more never changes.
     */
    method LoadMore(net: Network<Body<Post>>) returns (loaded: bool)
      requires Valid()
      modifies this
      ensures Valid()
      ensures var page := FetchPage(net, Posts, Some(postsLimit), Some(old(postsSkip)));
              loaded <==> page.Success?
      ensures !loaded ==> posts == old(posts) && commentsByPost == old(commentsByPost) && postsSkip == old(postsSkip)
      ensures loaded ==>
                var page := FetchPage(net, Posts, Some(postsLimit), Some(old(postsSkip))).value;
                var newPosts := if page.items.Some? then page.items.value else [];
                && posts == old(posts) + newPosts
                && postsSkip == old(postsSkip) + |newPosts|
                && commentsByPost == old(commentsByPost) + CommentIndex(allComments, newPosts)
      ensures forall k :: 0 <= k < |old(posts)| ==> commentsByPost[old(posts)[k].id] == old(commentsByPost)[old(posts)[k].id]
      ensures usersById == old(usersById) && allComments == old(allComments) && postsTotal == old(postsTotal)
      ensures loadMoreDisabled == (postsSkip >= postsTotal)
      ensures old(postsSkip) == |old(posts)| ==> postsSkip == |posts|
    {
      loadMoreDisabled := true;
      var postsData := FetchPage(net, Posts, Some(postsLimit), Some(postsSkip));
      if postsData.Success? {
        var newPosts := if postsData.value.items.Some? then postsData.value.items.value else [];
        IndexedExtend(posts, commentsByPost, allComments, newPosts);
        IndexComments(newPosts);
        posts := posts + newPosts;
        postsSkip := postsSkip + |newPosts|;
        loaded := true;
      } else {
        loaded := false;
      }
      loadMoreDisabled := postsSkip >= postsTotal;
    }

    /** `renderCommentsForPost`: the post's indexed comments, or the placeholder when it has none. */
    method RenderComments(postId: nat) returns (out: string)
      ensures postId !in commentsByPost || commentsByPost[postId] == [] ==> out == NoComments
      ensures postId in commentsByPost && commentsByPost[postId] != [] ==> out == CommentsHtml(commentsByPost[postId])
    {
      if postId !in commentsByPost || commentsByPost[postId] == [] {
        return NoComments;
      }
      var list := commentsByPost[postId];
      out := "";
      var i := 0;
      while i < |list|
        invariant 0 <= i <= |list|
        invariant out == CommentsHtml(list[..i])
      {
        CommentsHtmlAppend(list, i);
        out := out + CommentHtml(list[i]);
        i := i + 1;
      }
      assert list[..i] == list;
    }
  }

  /** The placeholder shows exactly when the post has no comments: rendered comments never look like it. */
  lemma PlaceholderIffNoComments(list: seq<Comment>)
    ensures CommentsHtml(list) != NoComments
    ensures list != [] ==> CommentsHtml(list) != ""
  {
    if list != [] {
      CommentsHtmlStart(list);
      PlaceholderIsNoComment();
    }
  }
}
