/** The like button of one post (LikeButton.tsx): disabled on the viewer's own post and once the
    viewer has liked it; a like records a row in the `like` table, then stores the post's count
    plus one and asks the list to refresh. */
module LikeButton {
  import opened Base
  import opened Backend
  import PostFeed

  /** A like row of this post by this user. */
  predicate IsLikeOf(l: Like, postId: string, userId: string) {
    l.postId == postId && l.userId == userId
  }

  /** How many like rows of this post by this user the table holds. */
  function LikeCount(likes: seq<Like>, postId: string, userId: string): nat
  {
    if likes == [] then 0
    else LikeCount(likes[..|likes| - 1], postId, userId) + (if IsLikeOf(likes[|likes| - 1], postId, userId) then 1 else 0)
  }

  /** Appending a row adds one to the count exactly when it is a like of this post by this user. */
  lemma LikeCountAppend(likes: seq<Like>, l: Like, postId: string, userId: string)
    ensures LikeCount(likes + [l], postId, userId) == LikeCount(likes, postId, userId) + if IsLikeOf(l, postId, userId) then 1 else 0
  {
    assert (likes + [l])[..|likes|] == likes;
  }

  /** The count is zero exactly when no row is a like of this post by this user. */
  lemma {:induction false} LikeCountZero(likes: seq<Like>, postId: string, userId: string)
    ensures LikeCount(likes, postId, userId) == 0 <==> forall l :: l in likes ==> !IsLikeOf(l, postId, userId)
  {
    if likes != [] {
      var init := likes[..|likes| - 1];
      LikeCountZero(init, postId, userId);
      assert likes == init + [likes[|likes| - 1]];
      forall l | l in init
        ensures l in likes
      {
      }
    }
  }

  /** What the lookup before an insert decides. */
  datatype Verdict = LookupFailed | AlreadyLiked | Insert

  /** Lines 45-53 as written: a lookup without error always has data, and an empty array is
      truthy, so every answer without error stops the like as if it already existed. */
  function LookupVerdictAsWritten(r: Result<seq<Like>>): (v: Verdict)
    ensures v == LookupFailed <==> r.Err?
    ensures v != Insert
  {
    if r.Err? then LookupFailed else AlreadyLiked
  }

  /** The intended reading: stop only when a like row came back. */
  function LookupVerdict(r: Result<seq<Like>>): (v: Verdict)
    ensures v == LookupFailed <==> r.Err?
    ensures v == Insert <==> r.Ok? && r.value == []
  {
    if r.Err? then LookupFailed else if |r.value| > 0 then AlreadyLiked else Insert
  }

  /** As written, a user who never liked the post still cannot like it: the lookup answers `[]`
      and the insert is skipped; the corrected verdict inserts. */
  lemma LikeLookupFinding()
    ensures LookupVerdictAsWritten(Ok([])) == AlreadyLiked
    ensures LookupVerdict(Ok([])) == Insert
  {
  }

  /** Against the table the lookup read, the corrected verdict inserts exactly when the user has no
      like on the post yet. */
  lemma LookupVerdictSound(likes: seq<Like>, postId: string, userId: string, r: Result<seq<Like>>)
    requires r.Ok? ==> forall l :: l in r.value <==> l in likes && IsLikeOf(l, postId, userId)
    ensures (LookupVerdict(r) == Insert <==> r.Ok? && LikeCount(likes, postId, userId) == 0)
    ensures LookupVerdict(r) == AlreadyLiked <==> r.Ok? && LikeCount(likes, postId, userId) > 0
  {
    LikeCountZero(likes, postId, userId);
    if r.Ok? && r.value != [] {
      assert r.value[0] in r.value;
    }
  }

  /** Where `handleLike` stopped. */
  datatype LikeStep = Blocked | LookupError | Existing | InsertFailed | FetchFailed | UpdateFailed | Counted(count: int)

  /** The state of one LikeButton. */
  class Button {
    const postId: string
    const postOwnerId: string
    const userId: string
    var isLiked: bool
    var loading: bool
    var isOwner: bool

    /** The first render: not liked, loading, not the owner. */
    constructor (postId: string, postOwnerId: string, userId: string)
      ensures this.postId == postId && this.postOwnerId == postOwnerId && this.userId == userId
      ensures !isLiked && loading && !isOwner
    {
      this.postId := postId;
      this.postOwnerId := postOwnerId;
      this.userId := userId;
      isLiked := false;
      loading := true;
      isOwner := false;
    }

    /** Whether the button is disabled. */
    predicate Disabled()
      reads this
    {
      isLiked || isOwner
    }

    /** The effect: `isOwner` is whether the viewer wrote the post, `isLiked` becomes true when the
        lookup finds a like by the viewer (a failed lookup leaves it), and loading ends. */
    method FetchLikeStatus(store: Store, fail: bool)
      modifies this`isLiked, this`loading, this`isOwner
      ensures isOwner == (postOwnerId == userId)
      ensures isLiked == (old(isLiked) || (!fail && LikeCount(store.likes, postId, userId) > 0))
      ensures !loading
    {
      isOwner := postOwnerId == userId;
      var r := store.SelectLikes(Some(postId), userId, fail);
      LikeCountZero(store.likes, postId, userId);
      if r.Ok? && |r.value| > 0 {
        assert r.value[0] in r.value;
        isLiked := true;
      }
      loading := false;
    }

    /** `handleLike`, with the lookup read as intended (see `LookupVerdict`). A disabled button does
        nothing; a lookup error or an existing like stops before the insert; after the insert the
        post's count is read (`.single()`), and the count plus one is stored. `refreshed` says
        whether `refreshPosts` was called: after the count update, failed or not. */
    method HandleLike(store: Store, now: string, lookupFails: bool, insertFails: bool, fetchFails: bool, updateFails: bool)
      returns (step: LikeStep, refreshed: bool)
      modifies this`isLiked, store`likes, store`posts
      ensures step == Blocked <==> old(Disabled())
      ensures step == LookupError <==> !old(Disabled()) && lookupFails
      ensures (step == Existing <==> (!old(Disabled()) && !lookupFails
        && LikeCount(old(store.likes), postId, userId) > 0))
      ensures step in {Blocked, LookupError, Existing, InsertFailed} ==> store.likes == old(store.likes)
      ensures (step !in {Blocked, LookupError, Existing, InsertFailed} ==>
        store.likes == old(store.likes) + [Like(postId, userId, now)] && LikeCount(old(store.likes), postId, userId) == 0)
      ensures (step == InsertFailed <==> (!old(Disabled()) && !lookupFails
        && LikeCount(old(store.likes), postId, userId) == 0 && insertFails))
      ensures isLiked == (old(isLiked) || step !in {Blocked, LookupError, InsertFailed})
      ensures (step == FetchFailed <==> (store.likes != old(store.likes)
        && (fetchFails || |RowsWithId(old(store.posts), postId)| != 1)))
      ensures (step.Counted? || step == UpdateFailed ==>
        |RowsWithId(old(store.posts), postId)| == 1
        && store.posts == (if step == UpdateFailed then old(store.posts)
          else UpdateWhere(old(store.posts), postId, SetIine(PostFeed.NextIine(RowsWithId(old(store.posts), postId)[0].iine)))))
      ensures step.Counted? ==> step.count == PostFeed.NextIine(RowsWithId(old(store.posts), postId)[0].iine) && !updateFails
      ensures step == UpdateFailed ==> updateFails
      ensures !(step.Counted? || step == UpdateFailed) ==> store.posts == old(store.posts)
      ensures refreshed <==> step.Counted? || step == UpdateFailed
      ensures LikeCount(old(store.likes), postId, userId) <= 1 ==> LikeCount(store.likes, postId, userId) <= 1
    {
      refreshed := false;
      if isLiked || isOwner {
        return Blocked, false;
      }
      var existing := store.SelectLikes(Some(postId), userId, lookupFails);
      LookupVerdictSound(store.likes, postId, userId, existing);
      var verdict := LookupVerdict(existing);
      if verdict == LookupFailed {
        return LookupError, false;
      }
      if verdict == AlreadyLiked {
        isLiked := true;
        return Existing, false;
      }
      var like := Like(postId, userId, now);
      LikeCountAppend(store.likes, like, postId, userId);
      var ok := store.InsertLike(like, insertFails);
      if !ok {
        return InsertFailed, false;
      }
      isLiked := true;
      var iine := store.SelectIine(postId, fetchFails);
      if iine.Err? {
        return FetchFailed, false;
      }
      var count := PostFeed.NextIine(iine.value);
      ok := store.UpdatePost(postId, SetIine(count), updateFails);
      if !ok {
        return UpdateFailed, true;
      }
      return Counted(count), true;
    }
  }
}
