# friendly: likes, posts and client address, in Dafny

This project models the two pieces of behaviour that the `friendly` social
posting backend implements itself, rather than delegating to its web
framework:

- **Posts and likes** (`friendly/api/views.py`). An in-memory `Store` class
  holds the users and posts the views read and change. Each post has its
  content, its author and the set of users who like it. The like count is
  the size of that set. The store's operations are these:
  - creating a post, which always takes its author from the authenticated
    caller;
  - the user and post detail lookups, which answer not-found for unknown ids;
  - the like toggle: it removes the caller's like if present and adds it
    otherwise.

  Post creation's contract states that the author is the caller and never
  comes from the request body. Lemmas show three things about the toggle: it
  changes nothing but the target post's like set; it moves the count by
  exactly one; and two toggles by the same user restore the post table
  (users and the id sequence are untouched by every toggle).
- **Client address** (`friendly/api/utils.py`, `remote_address`). This is a
  pure function over the request metadata. It returns the first
  comma-separated hop of a non-empty `X-Forwarded-For` header, unchanged and
  untrimmed. Otherwise it returns `REMOTE_ADDR`, or nothing when that is
  missing. Python's `str.split(",")` is modelled in full (`Split`). Joining
  a split gives back the string (`JoinSplit`), and splitting a join of
  comma-free pieces gives back the pieces (`SplitJoin`).

Files: `wrappers.dfy` (the `Option` type and dictionary `get`),
`client_address.dfy` (module `ClientAddress`), `store.dfy` (module
`Friendly`).

Likes follow the set-of-users form that the views use. The integer
`likes_count` in `friendly/api/models.py` and in the post serializer's field
list belongs to an older revision of the post model that the views no longer
match, so it is not modelled.

## Model

| member | source | states |
|---|---|---|
| ClientAddress.Split | friendly/api/utils.py:20 | `str.split` with one separator: it always gives at least one piece, one more than the separators, and no piece holds the separator |
| ClientAddress.JoinSplit | friendly/api/utils.py:20 | joining the pieces of a split with the same separator gives back the original string |
| ClientAddress.SplitJoin | friendly/api/utils.py:20 | splitting the join of at least one separator-free piece gives back exactly those pieces |
| ClientAddress.FirstPieceIsPrefix | friendly/api/utils.py:20 | `split(sep)[0]` is the longest prefix free of `sep`: a prefix, with no `sep`, followed by `sep` or the end of the string |
| ClientAddress.FirstPieceWithoutSeparator | friendly/api/utils.py:20 | with no separator in the string, `split(sep)[0]` is the whole string |
| ClientAddress.RemoteAddress | friendly/api/utils.py:8-25 | a non-empty `X-Forwarded-For` gives the text before its first comma, which has no comma; an absent or empty one gives `REMOTE_ADDR` if that key is present, even when its value is empty; the result is none exactly when `X-Forwarded-For` is absent or empty and `REMOTE_ADDR` is absent |
| ClientAddress.SingleHopReturnedWhole | friendly/api/utils.py:19-20 | a non-empty `X-Forwarded-For` without a comma is returned whole, with no trimming |
| ClientAddress.ForwardedHeaderRebuilt | friendly/api/utils.py:18-20 | the forwarded header is the returned hop, then either nothing or a comma and the remaining hops |
| ClientAddress.OnlyTwoKeysMatter | friendly/api/utils.py:18-23 | two metadata maps that agree on `HTTP_X_FORWARDED_FOR` and `REMOTE_ADDR` give the same result, whatever else they hold |
| Friendly.ContentError | friendly/api/views.py:49-52 | post content passes validation exactly when it is a non-empty string; a missing key is reported as a required-field error, `null` as a null-field error and an empty string as a blank-field error |
| Friendly.Toggled | friendly/api/views.py:82-85 | after a toggle the acting user likes the post exactly when they did not before; every other user's like is unchanged |
| Friendly.ToggledIsRemoveOrAdd | friendly/api/views.py:82-85 | a like set holding the user loses exactly that user; one not holding it gains exactly that user |
| Friendly.ToggledCount | friendly/api/tests/test_views.py:244-255 | a toggle from "not liked" raises the like count by one, and a toggle from "liked" lowers it by one |
| Friendly.ToggledTwice | friendly/api/tests/test_views.py:257-271 | two toggles by the same user restore the like set |
| Friendly.WithToggledLike | friendly/api/views.py:79-87 | a toggle keeps the same post ids, every other post, and the target post's id, content and author; only the target's likes change |
| Friendly.ToggleTwiceRestores | friendly/api/tests/test_views.py:257-271 | two toggles by the same user on the same post leave the whole post table as it was |
| Friendly.Store.GetUser | friendly/api/views.py:30-39 | a stored user id gives the stored user unchanged; an unknown id gives not-found |
| Friendly.Store.GetPost | friendly/api/views.py:58-67 | a stored post id gives the stored post unchanged; an unknown id gives not-found |
| Friendly.Store.CreatePost | friendly/api/views.py:45-52 | invalid content gives a 400 on `content` and leaves the store unchanged; valid content stores a new post under a fresh id, with no likes and the caller as author, whatever author the payload names; users are untouched and the store stays consistent |
| Friendly.Store.ToggleLike | friendly/api/views.py:73-87 | an unknown post id gives not-found and leaves the store unchanged; otherwise the post table becomes the toggled table and the updated post is returned; users and ids are untouched and the store stays consistent |
| Friendly.LikeThenUnlike | friendly/api/tests/test_views.py:244-271 | a like then an unlike by the same user on an existing post both succeed; the first raises the count by one when the user had not liked the post; the store's users, posts and next id end as they began and the final count equals the initial one |
| Wrappers.Get | friendly/api/utils.py:18-23 | `request.META.get(key)`: a value exactly when the key is present, and then the stored value |

## Left out

- `UserCreateView.post` (friendly/api/views.py:17-24): the user serializer and the database do all of the validation. They check required fields, email format and username/email uniqueness, and hash the password. Enqueueing the enrichment job is an asynchronous call into a task queue. Users enter the model only through the `Store` constructor.
- `LogoutView.post` (friendly/api/views.py:93-99) and login: the token library issues and blacklists tokens.
- Authentication and routing: the framework answers 401 and 405. The model assumes an authenticated caller, so `CreatePost` and `ToggleLike` require the caller to be a stored user.
- Friendly.ContentError: a missing `content` key is always a required-field error. This follows a post model whose content is required. The older `Post` model in friendly/api/models.py gives content a default, which would let such a request through; that model is not followed.
- Friendly.ContentError: does not model the serializer's whitespace trimming. Content made only of whitespace is accepted and stored untrimmed, although the post serializer would reject it as blank.
- Friendly.Store.CreatePost: stores and echoes the content exactly as sent, keeping any surrounding whitespace. The post serializer trims that whitespace before storing, so the stored and returned content can differ from the model's.
- Representations: the serializers' field selection and hyperlinks are not modelled. Responses carry the stored `User` or `Post` value, and timestamps are not modelled.
- `get_geo_data` and `get_holiday_data` (friendly/api/utils.py:28-42) make HTTP calls and read API keys from the environment. `get_holiday_data` calls `datetime.now()` on the `datetime` module, which would fail when run.
- The `print` calls in `remote_address` (friendly/api/utils.py:21, 24) are logging only.
- The `set_user_metadata` task (friendly/friendly/tasks.py) and the task-queue setup (friendly/friendly/celery.py) are an asynchronous job that calls external services.
- Concurrent like toggles: requests are modelled as one at a time. The database's unique membership constraint is not modelled.
