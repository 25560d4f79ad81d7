/**
 * The post and like handling of friendly/api/views.py over an in-memory
 * store: post creation authored by the authenticated caller, the detail
 * lookups that answer not-found for unknown ids, and the like toggle.
 *
 * Likes are the relational form used by the views: each post holds the set
 * of users who like it, and the like count is the size of that set.
 */
module Friendly {
  import opened Wrappers

  type UserId = nat
  type PostId = nat

  datatype User = User(id: UserId, username: string, email: string)

  datatype Post = Post(id: PostId, content: string, author: UserId, likes: set<UserId>)

  /**
   * The body of a post-creation request. The `author` field a client may
   * send is read-only in the post serializer and never used.
   */
  datatype PostPayload = PostPayload(content: ContentField, author: Option<UserId>)

  /** The `content` key of a request body: missing, JSON `null`, or a string. */
  datatype ContentField = Absent | Null | Value(text: string)

  /** "This field is required.", "This field may not be null.", "This field may not be blank." */
  datatype FieldError = RequiredField | NullField | BlankField

  /** What a view answers: a representation, not-found (404) or a field error (400). */
  datatype Response<T> = Ok(value: T) | NotFound | BadRequest(field: string, error: FieldError)

  /** Serializer validation of the `content` field: required, not null, not blank. */
  function ContentError(content: ContentField): (e: Option<FieldError>)
    ensures e.None? <==> content.Value? && content.text != []
    ensures content.Absent? ==> e == Some(RequiredField)
    ensures content.Null? ==> e == Some(NullField)
    ensures content == Value([]) ==> e == Some(BlankField)
  {
    match content
    case Absent => Some(RequiredField)
    case Null => Some(NullField)
    case Value(c) => if c == [] then Some(BlankField) else None
  }

  /** The like set after `u` toggles: `u`'s membership flips, nobody else's changes. */
  function Toggled(likes: set<UserId>, u: UserId): (r: set<UserId>)
    ensures u in r <==> u !in likes
    ensures forall v :: v != u ==> (v in r <==> v in likes)
  {
    if u in likes then likes - {u} else likes + {u}
  }

  /** Toggling removes exactly `u` from a set holding it, and adds exactly `u` otherwise. */
  lemma ToggledIsRemoveOrAdd(likes: set<UserId>, u: UserId)
    ensures u in likes ==> Toggled(likes, u) == likes - {u}
    ensures u !in likes ==> Toggled(likes, u) == likes + {u}
  {
  }

  /** A like from a user who did not like the post raises the count by one; an unlike lowers it by one. */
  lemma ToggledCount(likes: set<UserId>, u: UserId)
    ensures u !in likes ==> |Toggled(likes, u)| == |likes| + 1
    ensures u in likes ==> |Toggled(likes, u)| == |likes| - 1
  {
  }

  /** Toggling twice by the same user gives back the original like set. */
  lemma ToggledTwice(likes: set<UserId>, u: UserId)
    ensures Toggled(Toggled(likes, u), u) == likes
  {
  }

  /** The post table after `u` toggles a like on post `pk`. */
  function WithToggledLike(posts: map<PostId, Post>, pk: PostId, u: UserId): (r: map<PostId, Post>)
    requires pk in posts
    ensures r.Keys == posts.Keys
    ensures forall q :: q in posts && q != pk ==> r[q] == posts[q]
    ensures r[pk].id == posts[pk].id && r[pk].content == posts[pk].content
    ensures r[pk].author == posts[pk].author
    ensures r[pk].likes == Toggled(posts[pk].likes, u)
  {
    posts[pk := posts[pk].(likes := Toggled(posts[pk].likes, u))]
  }

  /** Two toggles by the same user on the same post leave the whole post table as it was. */
  lemma ToggleTwiceRestores(posts: map<PostId, Post>, pk: PostId, u: UserId)
    requires pk in posts
    ensures WithToggledLike(WithToggledLike(posts, pk, u), pk, u) == posts
  {
    var once := WithToggledLike(posts, pk, u);
    var twice := WithToggledLike(once, pk, u);
    ToggledTwice(posts[pk].likes, u);
    assert twice[pk] == posts[pk];
  }

  /** The stored users and posts; `nextPostId` stands for the database's id sequence. */
  class Store {
    var users: map<UserId, User>
    var posts: map<PostId, Post>
    var nextPostId: PostId

    /**
     * Every record is stored under its own id, post ids are below the next id
     * to be assigned, and authors and likers are existing users.
     */
    ghost predicate Valid()
      reads this
    {
      && (forall uid :: uid in users ==> users[uid].id == uid)
      && (forall pk :: pk in posts ==>
            && posts[pk].id == pk
            && pk < nextPostId
            && posts[pk].author in users
            && posts[pk].likes <= users.Keys)
    }

    constructor (initialUsers: map<UserId, User>)
      requires forall uid :: uid in initialUsers ==> initialUsers[uid].id == uid
      ensures Valid()
      ensures users == initialUsers && posts == map[] && nextPostId == 0
    {
      users := initialUsers;
      posts := map[];
      nextPostId := 0;
    }

    /** `UserDetailView.get`: the stored user, or not-found. */
    method GetUser(pk: UserId) returns (r: Response<User>)
      ensures pk in users ==> r == Ok(users[pk])
      ensures pk !in users ==> r == NotFound
    {
      if pk in users {
        r := Ok(users[pk]);
      } else {
        r := NotFound;
      }
    }

    /** `PostDetailView.get`: the stored post, or not-found. */
    method GetPost(pk: PostId) returns (r: Response<Post>)
      ensures pk in posts ==> r == Ok(posts[pk])
      ensures pk !in posts ==> r == NotFound
    {
      if pk in posts {
        r := Ok(posts[pk]);
      } else {
        r := NotFound;
      }
    }

    /**
     * `PostCreateView.post`: validate the content, then store a new post with
     * no likes, authored by the authenticated caller whatever the payload says.
     */
    method CreatePost(caller: UserId, payload: PostPayload) returns (r: Response<Post>)
      requires Valid() && caller in users
      modifies this
      ensures Valid() && users == old(users)
      ensures ContentError(payload.content).Some? ==>
        && r == BadRequest("content", ContentError(payload.content).value)
        && posts == old(posts) && nextPostId == old(nextPostId)
      ensures ContentError(payload.content).None? ==>
        && r == Ok(Post(old(nextPostId), payload.content.text, caller, {}))
        && old(nextPostId) !in old(posts)
        && posts == old(posts)[old(nextPostId) := r.value]
        && nextPostId == old(nextPostId) + 1
    {
      var error := ContentError(payload.content);
      if error.Some? {
        r := BadRequest("content", error.value);
        return;
      }
      var post := Post(nextPostId, payload.content.text, caller, {});
      posts := posts[nextPostId := post];
      nextPostId := nextPostId + 1;
      r := Ok(post);
    }

    /**
     * `LikesView.put`: look the post up (not-found if missing), then remove
     * the caller's like if present and add it otherwise, and answer the
     * updated post.
     */
    method ToggleLike(pk: PostId, caller: UserId) returns (r: Response<Post>)
      requires Valid() && caller in users
      modifies this
      ensures Valid() && users == old(users) && nextPostId == old(nextPostId)
      ensures pk !in old(posts) ==> r == NotFound && posts == old(posts)
      ensures pk in old(posts) ==>
        && posts == WithToggledLike(old(posts), pk, caller)
        && r == Ok(posts[pk])
    {
      var found := GetPost(pk);
      if found.NotFound? {
        r := NotFound;
        return;
      }
      var post := found.value;
      if caller in post.likes {
        post := post.(likes := post.likes - {caller});
      } else {
        post := post.(likes := post.likes + {caller});
      }
      posts := posts[pk := post];
      r := Ok(post);
    }
  }

  /**
   * A like followed by an unlike from the same user on an existing post:
   * the store's users, posts and next id end as they began, so the like count is back to its start.
   */
  method LikeThenUnlike(store: Store, pk: PostId, u: UserId) returns (first: Response<Post>, second: Response<Post>)
    requires store.Valid() && u in store.users && pk in store.posts
    modifies store
    ensures store.Valid() && store.posts == old(store.posts)
    ensures store.users == old(store.users) && store.nextPostId == old(store.nextPostId)
    ensures first.Ok? && second.Ok?
    ensures u !in old(store.posts[pk].likes) ==> |first.value.likes| == |old(store.posts[pk].likes)| + 1
    ensures |second.value.likes| == |old(store.posts[pk].likes)|
  {
    first := store.ToggleLike(pk, u);
    ToggledCount(old(store.posts[pk].likes), u);
    second := store.ToggleLike(pk, u);
    ToggleTwiceRestores(old(store.posts), pk, u);
  }
}
