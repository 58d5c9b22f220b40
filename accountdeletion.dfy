/** The deletion of a user by DeleteUser.tsx: refused while the user's profile has an avatar or the
    user still owns posts; otherwise the user's comments are scrubbed from every post that holds
    one, and only then the auth account is deleted and the list told about it. */
module AccountDeletion {
  import opened Base
  import opened Backend
  import opened UserAdmin

  /** Where `handleDelete` stopped. */
  datatype DeleteOutcome = ProfileFailed | HasAvatar | PostsFailed | HasPosts | AccountFailed | Deleted

  /** A post without the user's comments: `post.comments.filter(c => c.user_id !== userId)`. */
  function ScrubPost(p: Post, userId: string): Post
  {
    p.(comments := ScrubComments(p.comments, userId))
  }

  /** The scrubbed post holds no comment by the user and, in their order, all the others; nothing
      but its comments changes. */
  lemma ScrubPostMeaning(p: Post, userId: string)
    ensures ScrubPost(p, userId).(comments := p.comments) == p
    ensures !Mentions(ScrubPost(p, userId), userId)
    ensures forall c :: c in p.comments && c.userId != userId ==> c in ScrubPost(p, userId).comments
    ensures IsSubsequence(ScrubPost(p, userId).comments, p.comments)
  {
    var q := ScrubPost(p, userId);
    assert forall i :: 0 <= i < |q.comments| ==> q.comments[i] in q.comments;
  }

  /** The rows with the posts whose id is in `done` scrubbed, everything else as it was. */
  function ScrubWhere(posts: seq<Post>, userId: string, done: set<string>): (r: seq<Post>)
    ensures |r| == |posts|
    ensures forall i :: 0 <= i < |posts| ==> r[i] == if posts[i].id in done then ScrubPost(posts[i], userId) else posts[i]
  {
    if posts == [] then []
    else [if posts[0].id in done then ScrubPost(posts[0], userId) else posts[0]] + ScrubWhere(posts[1..], userId, done)
  }

  /** The ids of the posts the comment scrub is meant to update for good: those holding a comment
      by the user whose update does not fail. */
  function ScrubTargets(posts: seq<Post>, userId: string, updateFails: set<string>): set<string>
  {
    set p | p in posts && Mentions(p, userId) && p.id !in updateFails :: p.id
  }

  /** What the comment scrub is meant to leave. */
  function ScrubbedPosts(posts: seq<Post>, userId: string, updateFails: set<string>): seq<Post>
  {
    ScrubWhere(posts, userId, ScrubTargets(posts, userId, updateFails))
  }

  /** Every post holding a comment by the user, unless its update fails, loses that user's
      comments; the other posts stay as they are, in the same order. */
  lemma ScrubbedPostsMeaning(posts: seq<Post>, userId: string, updateFails: set<string>)
    requires UniqueIds(posts)
    ensures |ScrubbedPosts(posts, userId, updateFails)| == |posts|
    ensures forall i :: 0 <= i < |posts| ==> (ScrubbedPosts(posts, userId, updateFails)[i] ==
      if Mentions(posts[i], userId) && posts[i].id !in updateFails then ScrubPost(posts[i], userId) else posts[i])
  {
    var t := ScrubTargets(posts, userId, updateFails);
    forall i | 0 <= i < |posts|
      ensures posts[i].id in t <==> Mentions(posts[i], userId) && posts[i].id !in updateFails
    {
      if posts[i].id in t {
        var q :| q in posts && Mentions(q, userId) && q.id !in updateFails && q.id == posts[i].id;
        var k :| 0 <= k < |posts| && posts[k] == q;
        assert k == i;
      } else {
        assert posts[i] in posts;
      }
    }
  }

  /** One successful update of the loop scrubs one more post. */
  lemma ScrubStep(posts: seq<Post>, userId: string, done: set<string>, k: nat)
    requires UniqueIds(posts) && k < |posts|
    ensures UpdateWhere(ScrubWhere(posts, userId, done), posts[k].id, SetComments(ScrubComments(posts[k].comments, userId)))
      == ScrubWhere(posts, userId, done + {posts[k].id})
  {
    ScrubRowsWithId(posts, userId, done, posts[k].id, ScrubComments(posts[k].comments, userId));
  }

  /** Patching the rows with one id to their scrubbed comments marks that id done, whenever every
      such row scrubs to the same comments. */
  lemma {:induction false} ScrubRowsWithId(posts: seq<Post>, userId: string, done: set<string>, id: string, cs: seq<Comment>)
    requires forall j :: 0 <= j < |posts| && posts[j].id == id ==> ScrubComments(posts[j].comments, userId) == cs
    ensures UpdateWhere(ScrubWhere(posts, userId, done), id, SetComments(cs)) == ScrubWhere(posts, userId, done + {id})
  {
    if posts != [] {
      var before := ScrubWhere(posts, userId, done);
      ScrubRowsWithId(posts[1..], userId, done, id, cs);
      assert before[1..] == ScrubWhere(posts[1..], userId, done);
    }
  }

  /** The same step, for a row given by its contents. */
  lemma ScrubRow(posts: seq<Post>, userId: string, done: set<string>, p: Post)
    requires UniqueIds(posts) && p in posts
    ensures UpdateWhere(ScrubWhere(posts, userId, done), p.id, SetComments(ScrubComments(p.comments, userId)))
      == ScrubWhere(posts, userId, done + {p.id})
  {
    var k :| 0 <= k < |posts| && posts[k] == p;
    ScrubStep(posts, userId, done, k);
  }

  /** The ids of the first `k` snapshot rows whose update does not fail. */
  function UpdatedIds(s: seq<Post>, k: nat, updateFails: set<string>): set<string>
    requires k <= |s|
  {
    if k == 0 then {}
    else UpdatedIds(s, k - 1, updateFails) + (if s[k - 1].id in updateFails then {} else {s[k - 1].id})
  }

  /** An id is among them exactly when one of those rows has it and its update does not fail. */
  lemma {:induction false} UpdatedIdsMembers(s: seq<Post>, k: nat, updateFails: set<string>)
    requires k <= |s|
    ensures forall id :: id in UpdatedIds(s, k, updateFails) <==> exists j :: 0 <= j < k && s[j].id == id && id !in updateFails
  {
    if k > 0 {
      UpdatedIdsMembers(s, k - 1, updateFails);
    }
  }

  /** Once every row of the snapshot had its turn, the scrubbed ids are the scrub targets. */
  lemma ScrubDone(posts: seq<Post>, userId: string, updateFails: set<string>)
    ensures UpdatedIds(Mentioning(posts, userId), |Mentioning(posts, userId)|, updateFails)
      == ScrubTargets(posts, userId, updateFails)
  {
    var s := Mentioning(posts, userId);
    var done := UpdatedIds(s, |s|, updateFails);
    UpdatedIdsMembers(s, |s|, updateFails);
    forall id | id in ScrubTargets(posts, userId, updateFails)
      ensures id in done
    {
      var q :| q in posts && Mentions(q, userId) && q.id !in updateFails && q.id == id;
      assert q in s;
      var j :| 0 <= j < |s| && s[j] == q;
    }
    forall id | id in done
      ensures id in ScrubTargets(posts, userId, updateFails)
    {
      var j :| 0 <= j < |s| && s[j].id == id && id !in updateFails;
      assert s[j] in s;
    }
  }

  /** Without failed updates no post keeps a comment by the deleted user, and every other user's
      comment is still where it was. */
  lemma ScrubRemovesUser(posts: seq<Post>, userId: string)
    ensures forall p :: p in ScrubbedPosts(posts, userId, {}) ==> !Mentions(p, userId)
    ensures forall i, c :: (0 <= i < |posts| && c in posts[i].comments && c.userId != userId
      ==> c in ScrubbedPosts(posts, userId, {})[i].comments)
  {
    var r := ScrubbedPosts(posts, userId, {});
    forall p | p in r
      ensures !Mentions(p, userId)
    {
      var i :| 0 <= i < |r| && r[i] == p;
      ScrubPostMeaning(posts[i], userId);
    }
    forall i, c | 0 <= i < |posts| && c in posts[i].comments && c.userId != userId
      ensures c in r[i].comments
    {
      ScrubPostMeaning(posts[i], userId);
    }
  }

  /** `handleDelete`. The profile must be read (`.single()` fails unless exactly one row matches)
      and carry no avatar, and the user's posts must be read and be none; then each post of the
      `comments` snapshot is updated (its failure, `id in updateFails`, ignored; a failing snapshot
      select skips the scrub), and the account is deleted last. */
  method HandleDelete(store: Store, userId: string, profileFails: bool, postsFails: bool,
                      mentionsFails: bool, updateFails: set<string>, deleteFails: bool) returns (outcome: DeleteOutcome)
    requires UniqueIds(store.posts)
    modifies store`posts, store`accounts
    ensures outcome == ProfileFailed <==> profileFails || |ProfilesWithId(store.profiles, userId)| != 1
    ensures (outcome == HasAvatar <==> (!profileFails && |ProfilesWithId(store.profiles, userId)| == 1
      && Truthy(ProfilesWithId(store.profiles, userId)[0].avatarUrl)))
    ensures (outcome == PostsFailed <==> (!profileFails && |ProfilesWithId(store.profiles, userId)| == 1
      && !Truthy(ProfilesWithId(store.profiles, userId)[0].avatarUrl) && postsFails))
    ensures (outcome == HasPosts <==> (!profileFails && |ProfilesWithId(store.profiles, userId)| == 1
      && !Truthy(ProfilesWithId(store.profiles, userId)[0].avatarUrl) && !postsFails
      && exists p :: p in old(store.posts) && p.createdBy == userId))
    ensures (outcome in {ProfileFailed, HasAvatar, PostsFailed, HasPosts} ==>
      store.posts == old(store.posts) && store.accounts == old(store.accounts))
    ensures (outcome in {AccountFailed, Deleted} ==>
      store.posts == (if mentionsFails then old(store.posts) else ScrubbedPosts(old(store.posts), userId, updateFails))
      && outcome == (if deleteFails then AccountFailed else Deleted)
      && store.accounts == (if deleteFails then old(store.accounts)
        else WithoutAccount(old(store.accounts), userId)))
  {
    var profile := store.SelectProfile(userId, profileFails);
    if profile.Err? {
      return ProfileFailed;
    }
    if Truthy(profile.value.avatarUrl) {
      return HasAvatar;
    }
    var owned := store.SelectPostsBy(userId, postsFails);
    if owned.Err? {
      return PostsFailed;
    }
    if |owned.value| > 0 {
      assert owned.value[0] in owned.value;
      return HasPosts;
    }
    OnDeleteComments(store, userId, mentionsFails, updateFails);
    var ok := store.DeleteAccount(userId, deleteFails);
    outcome := if ok then Deleted else AccountFailed;
  }

  /** `onDeleteComments`: the loop over the snapshot of posts holding a comment by the user. */
  method OnDeleteComments(store: Store, userId: string, mentionsFails: bool, updateFails: set<string>)
    requires UniqueIds(store.posts)
    modifies store`posts
    ensures store.posts == if mentionsFails then old(store.posts) else ScrubbedPosts(old(store.posts), userId, updateFails)
  {
    var snapshot := store.SelectPostsMentioning(userId, mentionsFails);
    if snapshot.Err? {
      return;
    }
    ghost var posts0 := store.posts;
    ScrubSnapshot(store, snapshot.value, userId, updateFails);
    ScrubDone(posts0, userId, updateFails);
  }

  /** The loop of `onDeleteComments` over the rows `s` read before it: each row's update to its
      scrubbed comments takes effect unless it fails. */
  method ScrubSnapshot(store: Store, s: seq<Post>, userId: string, updateFails: set<string>)
    requires UniqueIds(store.posts)
    requires forall p :: p in s ==> p in store.posts
    modifies store`posts
    ensures store.posts == ScrubWhere(old(store.posts), userId, UpdatedIds(s, |s|, updateFails))
  {
    ghost var posts0 := store.posts;
    ghost var done: set<string> := {};
    var k := 0;
    while k < |s|
      invariant 0 <= k <= |s|
      invariant store.posts == ScrubWhere(posts0, userId, done)
      invariant done == UpdatedIds(s, k, updateFails)
    {
      done := ScrubOne(store, posts0, s, k, userId, done, updateFails);
      k := k + 1;
    }
  }

  /** Turn `k` of that loop: the update of row `s[k]`, which takes effect unless it fails. */
  method ScrubOne(store: Store, ghost posts0: seq<Post>, s: seq<Post>, k: nat, userId: string,
                  ghost done: set<string>, updateFails: set<string>) returns (ghost done': set<string>)
    requires UniqueIds(posts0) && k < |s| && s[k] in posts0
    requires store.posts == ScrubWhere(posts0, userId, done) && done == UpdatedIds(s, k, updateFails)
    modifies store`posts
    ensures done' == UpdatedIds(s, k + 1, updateFails)
    ensures store.posts == ScrubWhere(posts0, userId, done')
  {
    var p := s[k];
    var ok := store.UpdatePost(p.id, SetComments(ScrubComments(p.comments, userId)), p.id in updateFails);
    if ok {
      ScrubRow(posts0, userId, done, p);
      done' := done + {p.id};
    } else {
      done' := done;
    }
  }

  /** The DeleteUser button of one list row: the list drops the user only once the account is gone. */
  method DeleteFromList(store: Store, list: UserList, userId: string, profileFails: bool, postsFails: bool,
                        mentionsFails: bool, updateFails: set<string>, deleteFails: bool) returns (outcome: DeleteOutcome)
    requires UniqueIds(store.posts)
    modifies store`posts, store`accounts, list`users, list`filteredUsers, list`currentPage
    ensures outcome == Deleted ==> list.users == WithoutUser(old(list.users), userId) && list.Valid()
    ensures (outcome != Deleted ==> (list.users == old(list.users) && list.filteredUsers == old(list.filteredUsers)
      && list.currentPage == old(list.currentPage)))
  {
    outcome := HandleDelete(store, userId, profileFails, postsFails, mentionsFails, updateFails, deleteFails);
    if outcome == Deleted {
      list.HandleDelete(userId);
    }
  }
}
