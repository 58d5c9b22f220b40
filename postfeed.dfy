/** The post feed of PostList.tsx: paging, category selection, comments, the hidden flag, likes,
    deleting a post and deleting a post's file, over the component state and the backend store. */
module PostFeed {
  import opened Base
  import opened Text
  import opened YouTube
  import opened Backend

  const PostsPerPage := 2

  datatype Category = Category(id: string, name: string)

  /** The inclusive row range `fetchPosts` asks for on a page: `PostsPerPage` rows. */
  function FetchRange(page: int): (r: (int, int))
    ensures r.1 - r.0 + 1 == PostsPerPage
    ensures page >= 1 ==> r.0 >= 0
  {
    ((page - 1) * PostsPerPage, page * PostsPerPage - 1)
  }

  /** Each page starts right after the previous one ends, and row `n` lies on exactly one page. */
  lemma RowOnOnePage(n: nat, page: int)
    ensures FetchRange(page + 1).0 == FetchRange(page).1 + 1
    ensures FetchRange(page).0 <= n <= FetchRange(page).1 <==> page == n / PostsPerPage + 1
  {
    var q := n / PostsPerPage;
    assert n == PostsPerPage * q + n % PostsPerPage;
    if page <= q {
      assert page * PostsPerPage <= q * PostsPerPage;
    } else if page >= q + 2 {
      assert (page - 1) * PostsPerPage >= (q + 1) * PostsPerPage;
    }
  }

  /** `Math.ceil((count ?? 0) / POSTS_PER_PAGE)`: the fewest pages holding `count` rows. */
  function TotalPages(count: Option<nat>): (r: nat)
    ensures var c := if count.Some? then count.value else 0;
      PostsPerPage * r >= c && PostsPerPage * r < c + PostsPerPage
  {
    var c := if count.Some? then count.value else 0;
    (c + PostsPerPage - 1) / PostsPerPage
  }

  /** Every row of a result of `count` rows lies on a page from 1 to `TotalPages`, and the last
      page is not empty. */
  lemma PagesCoverRows(c: nat, n: nat)
    requires n < c
    ensures 1 <= n / PostsPerPage + 1 <= TotalPages(Some(c))
    ensures FetchRange(TotalPages(Some(c))).0 < c
  {
    var r := TotalPages(Some(c));
    assert PostsPerPage * (n / PostsPerPage) <= n;
    assert PostsPerPage * (n / PostsPerPage + 1) <= PostsPerPage * r;
  }

  /** `categories.find(category => category.id === id)` */
  function FindCategory(categories: seq<Category>, id: string): (r: Option<Category>)
    ensures r.Some? ==> r.value in categories && r.value.id == id
    ensures r.None? <==> forall c :: c in categories ==> c.id != id
  {
    if categories == [] then None
    else if categories[0].id == id then Some(categories[0])
    else FindCategory(categories[1..], id)
  }

  /** `handleCategoryChange`: the selected category (none for the empty choice) and its label
      ('ALL' for the empty choice, the category's non-empty name, or none). */
  function CategorySelection(value: string, categories: seq<Category>): (r: (Option<string>, Option<string>))
    ensures value == "" ==> r == (None, Some("ALL"))
    ensures value != "" ==> r.0 == Some(value)
    ensures value != "" && r.1.Some? ==> exists c :: c in categories && c.id == value && c.name == r.1.value && c.name != ""
    ensures value != "" && (forall c :: c in categories ==> c.id != value) ==> r.1.None?
    ensures value != "" ==> r.1 == (if FindCategory(categories, value).Some? && FindCategory(categories, value).value.name != ""
                                    then Some(FindCategory(categories, value).value.name) else None)
  {
    if value == "" then (None, Some("ALL"))
    else
      match FindCategory(categories, value)
      case Some(c) => (Some(value), if c.name != "" then Some(c.name) else None)
      case None => (Some(value), None)
  }

  /** With unique category ids, choosing the id of a category with a non-empty name labels the
      selection with that name. */
  lemma CategoryLabel(value: string, categories: seq<Category>, c: Category)
    requires forall i, j :: 0 <= i < j < |categories| ==> categories[i].id != categories[j].id
    requires c in categories && c.id == value && value != "" && c.name != ""
    ensures CategorySelection(value, categories) == (Some(value), Some(c.name))
  {
  }

  /** The draft typed for a post: `comment[postId]`, absent when nothing was typed. */
  function Draft(drafts: map<string, string>, postId: string): (r: Option<string>)
    ensures r.Some? <==> postId in drafts
    ensures r.Some? ==> r.value == drafts[postId]
  {
    if postId in drafts then Some(drafts[postId]) else None
  }

  /** `profileData?.nickname || 'Unknown'` for the `.single()` read of the commenter's profile. */
  function CommentNickname(rows: seq<ProfileRow>, userId: string, readFails: bool): string
  {
    var found := ProfilesWithId(rows, userId);
    if !readFails && |found| == 1 && Truthy(found[0].nickname) then found[0].nickname.value else "Unknown"
  }

  /** `profileData?.avatar_url || ''` for the same read: always a string, never `null`. */
  function CommentAvatar(rows: seq<ProfileRow>, userId: string, readFails: bool): Option<string>
  {
    var found := ProfilesWithId(rows, userId);
    Some(if !readFails && |found| == 1 then OrEmpty(found[0].avatarUrl) else "")
  }

  /** The comment enrichment of `fetchPosts`: `{ ...comment, nickname: commentProfile?.nickname ||
      'Unknown', avatar_url: commentProfile?.avatar_url || null }`, where `commentProfile` is the
      `.single()` read of the author's profile row. Only the author decides the two fields. */
  function EnrichComment(c: Comment, profiles: seq<ProfileRow>): (d: Comment)
    ensures d.userId == c.userId && d.text == c.text && d.createdAt == c.createdAt
    ensures |ProfilesWithId(profiles, c.userId)| != 1 ==> d.nickname == "Unknown" && d.avatarUrl == None
    ensures forall row :: ProfilesWithId(profiles, c.userId) == [row] ==>
      d.nickname == (if Truthy(row.nickname) then row.nickname.value else "Unknown")
      && d.avatarUrl == (if Truthy(row.avatarUrl) then row.avatarUrl else None)
  {
    var found := ProfilesWithId(profiles, c.userId);
    var avatar := if |found| == 1 && Truthy(found[0].avatarUrl) then found[0].avatarUrl else None;
    c.(nickname := CommentNickname(profiles, c.userId, false), avatarUrl := avatar)
  }

  /** `post.comments.map(...)` with the enrichment, in the stored order. */
  function EnrichComments(cs: seq<Comment>, profiles: seq<ProfileRow>): (ds: seq<Comment>)
    ensures |ds| == |cs|
  {
    seq(|cs|, i requires 0 <= i < |cs| => EnrichComment(cs[i], profiles))
  }

  /** `data.map(...)` of `fetchPosts`: every post of the page with its comments enriched. The post's
      own `nickname` and `avatar_url` from the `profile` join only feed rendering. */
  function EnrichPosts(posts: seq<Post>, profiles: seq<ProfileRow>): (r: seq<Post>)
    ensures |r| == |posts|
  {
    seq(|posts|, i requires 0 <= i < |posts| => posts[i].(comments := EnrichComments(posts[i].comments, profiles)))
  }

  /** The enrichment keeps every post where it was and everything in it but the comments' nickname
      and avatar: ids, order, count of comments, and each comment's author, text and time. */
  lemma EnrichPostsKeeps(posts: seq<Post>, profiles: seq<ProfileRow>)
    ensures Ids(EnrichPosts(posts, profiles)) == Ids(posts)
    ensures forall i :: 0 <= i < |posts| ==> Patched(posts[i], SetComments(EnrichPosts(posts, profiles)[i].comments)) == EnrichPosts(posts, profiles)[i]
    ensures forall i, k :: 0 <= i < |posts| && 0 <= k < |posts[i].comments| ==>
      var c, d := posts[i].comments[k], EnrichPosts(posts, profiles)[i].comments[k];
      |EnrichPosts(posts, profiles)[i].comments| == |posts[i].comments|
      && d.userId == c.userId && d.text == c.text && d.createdAt == c.createdAt
  {
  }

  /** Enriching twice is enriching once: an enriched comment already carries its author's
      nickname and avatar, so writing it back and reading it again gives it unchanged. */
  lemma EnrichIdempotent(cs: seq<Comment>, profiles: seq<ProfileRow>)
    ensures EnrichComments(EnrichComments(cs, profiles), profiles) == EnrichComments(cs, profiles)
  {
  }

  /** Every comment on a fetched page is already enriched, so the comments `handleCommentSubmit`
      and `handleCommentDelete` write back from the page carry the enrichment's nickname and
      avatar, not the ones stored before. */
  lemma FetchedCommentsEnriched(posts: seq<Post>, profiles: seq<ProfileRow>, i: int, k: int)
    requires 0 <= i < |posts| && 0 <= k < |posts[i].comments|
    ensures var d := EnrichPosts(posts, profiles)[i].comments[k];
      EnrichComment(d, profiles) == d
  {
  }

  /** The nickname and avatar an entry showed before (stored when it was written) do not survive
      the enrichment: two comments by the same author come out with the same two fields. */
  lemma EnrichByAuthor(c1: Comment, c2: Comment, profiles: seq<ProfileRow>)
    requires c1.userId == c2.userId
    ensures EnrichComment(c1, profiles).nickname == EnrichComment(c2, profiles).nickname
    ensures EnrichComment(c1, profiles).avatarUrl == EnrichComment(c2, profiles).avatarUrl
  {
  }

  /** The guard of `handleCommentSubmit` as written: only a draft that trims to '' is stopped. */
  predicate CommentAcceptedAsWritten(draft: Option<string>) {
    !(draft.Some? && Trim(draft.value) == "")
  }

  /** The guard as intended: a draft exists and is not blank. */
  predicate CommentAccepted(draft: Option<string>) {
    draft.Some? && Trim(draft.value) != ""
  }

  /** A post whose draft box is still untouched passes the guard as written, and the comment then
      stored has no text; the intended guard stops it. On every draft that exists the two agree,
      and the intended one accepts exactly the drafts that are not all white space. */
  lemma CommentGuardFinding(draft: Option<string>)
    ensures CommentAcceptedAsWritten(None) && !CommentAccepted(None)
    ensures draft.Some? ==> (CommentAcceptedAsWritten(draft) <==> CommentAccepted(draft))
    ensures draft.Some? ==> (CommentAccepted(draft) <==> !AllSpace(draft.value))
  {
  }

  /** Once something is typed into a post's box, the intended guard accepts the draft exactly when
      it is not all white space, and the other posts' drafts stay as they were. */
  lemma TypedDraftAccepted(drafts: map<string, string>, postId: string, value: string, other: string)
    requires other != postId
    ensures CommentAccepted(Draft(drafts[postId := value], postId)) <==> !AllSpace(value)
    ensures Draft(drafts[postId := value], other) == Draft(drafts, other)
  {
  }

  /** `comments.filter((_, index) => index !== i)`: the entry at `i` goes, the rest keep their
      order, and an index outside the list removes nothing. */
  function RemoveAt<T>(s: seq<T>, i: int): (r: seq<T>)
    ensures 0 <= i < |s| ==> r == s[..i] + s[i + 1..]
    ensures !(0 <= i < |s|) ==> r == s
    decreases |s|
  {
    if s == [] then []
    else
      var rest := RemoveAt(s[1..], i - 1);
      assert 0 < i < |s| ==> s[1..][..i - 1] == s[1..i] && s[1..][i..] == s[i + 1..];
      if i == 0 then rest else [s[0]] + rest
  }

  /** The guard of `handleLike`: a signed-in user, a post of the page that they did not write, and
      no earlier like of it in this session. */
  predicate LikeProceeds(session: Option<string>, posts: seq<Post>, liked: set<string>, postId: string) {
    session.Some? && FindPost(posts, postId).Some? && FindPost(posts, postId).value.createdBy != session.value
    && postId !in liked
  }

  /** `(iine || 0) + 1` */
  function NextIine(iine: Option<int>): (n: int)
    ensures iine.None? ==> n == 1
    ensures iine.Some? ==> n == iine.value + 1
  {
    (if iine.Some? then iine.value else 0) + 1
  }

  /** The guard of `handleDelete`: a post of the page whose file is neither marked deleted nor a
      YouTube link may not be deleted. */
  predicate DeleteRefused(found: Option<Post>) {
    found.Some? && !found.value.isFileDeleted && !IsYouTubeUrl(OrEmpty(found.value.fileUrl))
  }

  /** An uploaded video's address is never taken for a YouTube link, so a post with an uploaded
      video that has not been deleted yet cannot be deleted; a post linking a YouTube video can. */
  lemma UploadedVideoBlocksDelete(p: Post, fileName: string, stamp: string, id: string)
    requires '/' !in fileName && '/' !in stamp
    requires IsVideoId(id)
    ensures p.fileUrl == Some(PostFileUrl(fileName, stamp)) && !p.isFileDeleted ==> DeleteRefused(Some(p))
    ensures p.fileUrl == Some(WatchPrefix + id) ==> !DeleteRefused(Some(p))
    ensures !DeleteRefused(None)
  {
    UploadedFileNotYouTube(fileName, stamp);
    MatchWatchForm(id);
  }

  /** A stretch of the address without a 'y' cannot start a match, so the scan passes over it. */
  lemma SkipChunk(url: string, c: nat, chunk: string)
    requires c + |chunk| <= |url| && 'y' !in chunk
    requires forall i :: 0 <= i < |chunk| ==> url[c + i] == chunk[i]
    ensures FirstMatch(url, c) == FirstMatch(url, c + |chunk|)
  {
    forall i | c <= i < c + |chunk|
      ensures url[i] != 'y'
    {
      assert url[c + (i - c)] == chunk[i - c];
    }
    SkipNoY(url, c, |chunk|);
  }

  /** The project reference holds two 'y's, neither followed by 'o'. */
  lemma SkipProjectRef(url: string, c: nat)
    requires c + 20 <= |url|
    requires forall i :: 0 <= i < 20 ==> url[c + i] == ProjectRef[i]
    ensures FirstMatch(url, c) == FirstMatch(url, c + 20)
  {
    assert url[c + 0] == ProjectRef[0] == 'n';
    assert url[c + 2] == ProjectRef[2] == 'w';
    assert url[c + 10] == ProjectRef[10] == 'm';
    SkipNoY(url, c, 1);
    NotAt(url, c + 1, "youtube.com/", 1);
    NotAt(url, c + 1, "youtu.be/", 1);
    forall j | c + 2 <= j < c + 9
      ensures url[j] != 'y'
    {
      assert url[c + (j - c)] == ProjectRef[j - c];
    }
    SkipNoY(url, c + 2, 7);
    NotAt(url, c + 9, "youtube.com/", 1);
    NotAt(url, c + 9, "youtu.be/", 1);
    forall j | c + 10 <= j < c + 20
      ensures url[j] != 'y'
    {
      assert url[c + (j - c)] == ProjectRef[j - c];
    }
    SkipNoY(url, c + 10, 10);
  }

  lemma UploadedFileNotYouTube(fileName: string, stamp: string)
    requires '/' !in fileName && '/' !in stamp
    ensures !IsYouTubeUrl(PostFileUrl(fileName, stamp))
  {
    var url := PostFileUrl(fileName, stamp);
    var rest := "/storage/v1/object/public/" + "post_files" + "/" + ("public/" + fileName) + "?t=" + stamp;
    assert url == "https://" + ProjectRef + ".supabase.co" + rest;
    UploadHostSkip(url, rest);
    UploadPathSkip(fileName, stamp);
    UploadTailNoSlash(fileName, stamp);
    NoSlashNoMatch(url, 84);
  }

  /** The scheme, project reference and domain of the address hold no match. */
  lemma UploadHostSkip(url: string, rest: string)
    requires url == "https://" + ProjectRef + ".supabase.co" + rest
    ensures FirstMatch(url, 0) == FirstMatch(url, 40)
  {
    SkipChunk(url, 0, "https://");
    SkipProjectRef(url, 8);
    SkipChunk(url, 28, ".supabase.co");
  }

  /** Nor does the storage path in front of the file name. */
  lemma UploadPathSkip(fileName: string, stamp: string)
    ensures var url := PostFileUrl(fileName, stamp);
      |url| >= 84 && FirstMatch(url, 40) == FirstMatch(url, 84)
  {
    UploadStorageSkip(fileName, stamp);
    UploadBucketSkip(fileName, stamp);
    UploadFolderSkip(fileName, stamp);
  }

  lemma UploadStorageSkip(fileName: string, stamp: string)
    ensures var url := PostFileUrl(fileName, stamp);
      |url| >= 84 && FirstMatch(url, 40) == FirstMatch(url, 66)
  {
    var url := PostFileUrl(fileName, stamp);
    var b := "post_files" + "/" + ("public/" + fileName) + "?t=" + stamp;
    assert url == ProjectUrl + "/storage/v1/object/public/" + b;
    SkipStoragePrefix(url, ProjectUrl, b);
  }

  lemma UploadBucketSkip(fileName: string, stamp: string)
    ensures var url := PostFileUrl(fileName, stamp);
      FirstMatch(url, 66) == FirstMatch(url, 76)
  {
    var url := PostFileUrl(fileName, stamp);
    var b := "/" + ("public/" + fileName) + "?t=" + stamp;
    assert url == ProjectUrl + "/storage/v1/object/public/" + "post_files" + b;
    SkipBucketName(url, ProjectUrl + "/storage/v1/object/public/", b);
  }

  lemma UploadFolderSkip(fileName: string, stamp: string)
    ensures var url := PostFileUrl(fileName, stamp);
      FirstMatch(url, 76) == FirstMatch(url, 84)
  {
    var url := PostFileUrl(fileName, stamp);
    var b := fileName + "?t=" + stamp;
    assert url == BucketUrl(PostFiles) + "/" + "public/" + b;
    SkipPublicFolder(url, BucketUrl(PostFiles), b);
  }

  lemma SkipStoragePrefix(url: string, a: string, b: string)
    requires url == a + "/storage/v1/object/public/" + b
    ensures FirstMatch(url, |a|) == FirstMatch(url, |a| + 26)
  {
    SkipChunk(url, |a|, "/storage/v1/object/public/");
  }

  lemma SkipBucketName(url: string, a: string, b: string)
    requires url == a + "post_files" + b
    ensures FirstMatch(url, |a|) == FirstMatch(url, |a| + 10)
  {
    SkipChunk(url, |a|, "post_files");
  }

  lemma SkipPublicFolder(url: string, a: string, b: string)
    requires url == a + "/" + "public/" + b
    ensures FirstMatch(url, |a|) == FirstMatch(url, |a| + 8)
  {
    SkipChunk(url, |a|, "/");
    SkipChunk(url, |a| + 1, "public/");
  }

  /** After the storage path the address holds no slash. */
  lemma UploadTailNoSlash(fileName: string, stamp: string)
    requires '/' !in fileName && '/' !in stamp
    ensures forall i :: 84 <= i < |PostFileUrl(fileName, stamp)| ==> PostFileUrl(fileName, stamp)[i] != '/'
  {
    var url := PostFileUrl(fileName, stamp);
    var tail := fileName + "?t=" + stamp;
    var pre := BucketUrl(PostFiles) + "/" + "public/";
    assert |pre| == 84;
    assert url == pre + tail;
    forall i | 84 <= i < |url|
      ensures url[i] != '/'
    {
      assert url[i] == tail[i - 84];
      if i - 84 >= |fileName| {
        assert tail[i - 84] == ("?t=" + stamp)[i - 84 - |fileName|];
      }
    }
  }

  /** `array.slice(-2)`: the last two elements, or all of them when there are fewer. */
  function LastTwo<T>(s: seq<T>): (r: seq<T>)
    ensures |s| >= 2 ==> |r| == 2 && r == s[|s| - 2..]
    ensures |s| < 2 ==> r == s
  {
    if |s| >= 2 then s[|s| - 2..] else s
  }

  /** `fileUrl.split('/').slice(-2).join('/').split('?')[0]` */
  function StoragePath(fileUrl: string): string
  {
    Split(Join(LastTwo(Split(fileUrl, '/')), '/'), '?')[0]
  }

  /** The storage path taken from an uploaded video's address is the path it was uploaded to. */
  lemma StoragePathOfUpload(fileName: string, stamp: string)
    requires '/' !in fileName && '?' !in fileName && '/' !in stamp
    ensures StoragePath(PostFileUrl(fileName, stamp)) == "public/" + fileName
  {
    var query := "t=" + stamp;
    var tail := fileName + ['?'] + query;
    var parts := UploadSegments(fileName, stamp);
    LastTwoOfAppend(Split(BucketUrl(PostFiles), '/'), "public", tail);
    var path := JoinFolder(fileName, query);
    FirstSegmentBefore(path, query, '?');
  }

  lemma LastTwoOfAppend<T>(s: seq<T>, a: T, b: T)
    ensures LastTwo(s + [a, b]) == [a, b]
  {
    assert (s + [a, b])[|s| + 2 - 2..] == [a, b];
  }

  /** Joining the folder with the file name and query gives the path, a '?' and the query. */
  lemma JoinFolder(fileName: string, query: string) returns (path: string)
    requires '?' !in fileName
    ensures path == "public/" + fileName && '?' !in path
    ensures Join(["public", fileName + ['?'] + query], '/') == path + ['?'] + query
  {
    path := "public/" + fileName;
    assert "public" + ['/'] == "public/";
    assert '?' !in path by {
      forall i | 0 <= i < |path|
        ensures path[i] != '?'
      {
        if i >= 7 {
          assert path[i] == fileName[i - 7];
        }
      }
    }
  }

  /** The '/'-segments of an uploaded video's address end with `public` and the file name with its
      query. */
  lemma UploadSegments(fileName: string, stamp: string) returns (parts: seq<string>)
    requires '/' !in fileName && '/' !in stamp
    ensures parts == Split(BucketUrl(PostFiles), '/') + ["public", fileName + ['?'] + ("t=" + stamp)]
    ensures Split(PostFileUrl(fileName, stamp), '/') == parts
  {
    var head := BucketUrl(PostFiles);
    var tail := fileName + ['?'] + ("t=" + stamp);
    UploadUrlShape(fileName, stamp);
    SplitConcat(head, "public" + ['/'] + tail, '/');
    SplitPublicTail(tail);
    parts := Split(head, '/') + ["public", tail];
  }

  /** The address of an uploaded video: the bucket address, `/public/`, the file name and its query. */
  lemma UploadUrlShape(fileName: string, stamp: string)
    requires '/' !in fileName && '/' !in stamp
    ensures PostFileUrl(fileName, stamp) == BucketUrl(PostFiles) + ['/'] + ("public" + ['/'] + (fileName + ['?'] + ("t=" + stamp)))
    ensures '/' !in fileName + ['?'] + ("t=" + stamp)
  {
    var query := "t=" + stamp;
    var tail := fileName + ['?'] + query;
    assert '/' !in tail by {
      assert forall i :: 0 <= i < |tail| ==> tail[i] == (if i < |fileName| then fileName[i] else (['?'] + query)[i - |fileName|]);
    }
    assert "public/" == "public" + ['/'];
    assert "?t=" + stamp == ['?'] + query;
  }

  /** `public/<tail>` splits into the folder and the tail when the tail holds no '/'. */
  lemma SplitPublicTail(tail: string)
    requires '/' !in tail
    ensures Split("public" + ['/'] + tail, '/') == ["public", tail]
  {
    SplitConcat("public", tail, '/');
    SplitNoSeparator("public", '/');
    SplitNoSeparator(tail, '/');
  }

  /** The outcome of `handleLike`. */
  datatype LikeOutcome = Skipped | InsertFailed | FetchFailed | UpdateFailed | Liked(count: int)

  /** What `handleDeleteFile` ended with. */
  datatype FileDeleteOutcome = ListFailed | Missing | RemoveFailed | FileDeleted(path: string)

  /** The state of the PostList component. */
  class Feed {
    var posts: seq<Post>
    var filteredPosts: seq<Post>
    var likedPosts: set<string>
    var comment: map<string, string>
    var currentPage: int
    var totalPages: int
    var selectedCategory: Option<string>
    var selectedCategoryName: Option<string>
    var categories: seq<Category>
    /** The signed-in user's id. */
    var session: Option<string>

    constructor ()
      ensures posts == [] && filteredPosts == [] && likedPosts == {} && comment == map[]
      ensures currentPage == 1 && totalPages == 1
      ensures selectedCategory == None && selectedCategoryName == Some("未選択")
      ensures categories == [] && session == None
    {
      posts := [];
      filteredPosts := [];
      likedPosts := {};
      comment := map[];
      currentPage := 1;
      totalPages := 1;
      selectedCategory := None;
      selectedCategoryName := Some("未選択");
      categories := [];
      session := None;
    }

    /** `fetchCategories`, given the answer of the `category` select. */
    method FetchCategories(answer: Result<seq<Category>>)
      modifies this`categories
      ensures categories == if answer.Ok? then answer.value else old(categories)
    {
      if answer.Ok? {
        categories := answer.value;
      }
    }

    /** `fetchPosts(page, categoryId)`: the page's rows replace both post lists and the page count
        follows the row count; on an error the state stays. */
    method FetchPosts(store: Store, page: int, cat: Option<string>, fail: bool)
      requires page >= 1
      modifies this`posts, this`filteredPosts, this`totalPages
      ensures fail ==> posts == old(posts) && filteredPosts == old(filteredPosts) && totalPages == old(totalPages)
      ensures !fail ==> (posts == filteredPosts
        == EnrichPosts(RangeRows(InCategory(store.posts, cat), FetchRange(page).0, FetchRange(page).1), store.profiles))
      ensures !fail ==> totalPages == TotalPages(Some(|InCategory(store.posts, cat)|))
    {
      var range := FetchRange(page);
      var r := store.SelectPage(cat, range.0, range.1, fail);
      if r.Ok? {
        posts := EnrichPosts(r.value.0, store.profiles);
        filteredPosts := posts;
        totalPages := TotalPages(Some(r.value.1));
      }
    }

    /** `handleCategoryChange`: the selection and its label change and the page goes back to 1. */
    method HandleCategoryChange(value: string)
      modifies this`selectedCategory, this`selectedCategoryName, this`currentPage
      ensures (selectedCategory, selectedCategoryName) == CategorySelection(value, categories)
      ensures currentPage == 1
    {
      var sel := CategorySelection(value, categories);
      selectedCategory := sel.0;
      selectedCategoryName := sel.1;
      currentPage := 1;
    }

    method HandlePageChange(page: int)
      modifies this`currentPage
      ensures currentPage == page
    {
      currentPage := page;
    }

    /** The session effect: remember the user and, for a signed-in user, the posts they liked. */
    method LoadSession(store: Store, user: Option<string>, fail: bool)
      modifies this`session, this`likedPosts
      ensures session == user
      ensures user.Some? && !fail ==> forall id :: id in likedPosts <==> exists l :: l in store.likes && l.userId == user.value && l.postId == id
      ensures user.None? || fail ==> likedPosts == old(likedPosts)
    {
      session := user;
      if user.Some? {
        var r := store.SelectLikes(None, user.value, fail);
        if r.Ok? {
          likedPosts := set l | l in r.value :: l.postId;
        }
      }
    }

    /** `handleCommentSubmit`: a new comment by the signed-in user goes at the end of the post's
        comments, in the store and in both lists, and the draft is cleared; the re-fetch that
        follows is `FetchPosts`. Nothing changes when the guard stops it, when nobody is signed in,
        when the post is not on the page, or when the update fails. */
    method HandleCommentSubmit(store: Store, postId: string, now: string, profileFails: bool, updateFails: bool)
      returns (added: Option<Comment>)
      modifies this`posts, this`filteredPosts, this`comment, store`posts
      ensures added.None? ==> (posts == old(posts) && filteredPosts == old(filteredPosts)
        && comment == old(comment) && store.posts == old(store.posts))
      ensures added.Some? <==> (CommentAccepted(Draft(old(comment), postId)) && old(session).Some?
        && FindPost(old(posts), postId).Some? && !updateFails)
      ensures added.Some? ==>
        var c := added.value;
        var cs := FindPost(old(posts), postId).value.comments + [c];
        c == Comment(old(session).value, old(comment)[postId], now,
                     CommentNickname(store.profiles, old(session).value, profileFails),
                     CommentAvatar(store.profiles, old(session).value, profileFails))
        && store.posts == UpdateWhere(old(store.posts), postId, SetComments(cs))
        && posts == UpdateWhere(old(posts), postId, SetComments(cs))
        && filteredPosts == UpdateWhere(old(filteredPosts), postId, SetComments(cs))
        && comment == old(comment)[postId := ""]
    {
      added := None;
      var draft := Draft(comment, postId);
      if !CommentAccepted(draft) {
        return;
      }
      if session.None? {
        return;
      }
      var user := session.value;
      var nickname, avatar := ReadCommenter(store, user, profileFails);
      var found := FindPost(posts, postId);
      if found.None? {
        return;
      }
      var c := Comment(user, draft.value, now, nickname, avatar);
      var cs := found.value.comments + [c];
      var ok := store.UpdatePost(postId, SetComments(cs), updateFails);
      if ok {
        posts := UpdateWhere(posts, postId, SetComments(cs));
        filteredPosts := UpdateWhere(filteredPosts, postId, SetComments(cs));
        comment := comment[postId := ""];
        added := Some(c);
      }
    }

    /** The draft box's `onChange`: `setComment({ ...comment, [post.id]: e.target.value })`. */
    method HandleCommentChange(postId: string, value: string)
      modifies this`comment
      ensures comment == old(comment)[postId := value]
    {
      comment := comment[postId := value];
    }

    /** The commenter's `.single()` profile read: the nickname, or 'Unknown', and the avatar
        address, or ''. */
    method ReadCommenter(store: Store, userId: string, readFails: bool) returns (nickname: string, avatar: Option<string>)
      ensures nickname == CommentNickname(store.profiles, userId, readFails)
      ensures avatar == CommentAvatar(store.profiles, userId, readFails)
    {
      var profile := store.SelectProfile(userId, readFails);
      nickname := if profile.Ok? && Truthy(profile.value.nickname) then profile.value.nickname.value else "Unknown";
      avatar := Some(if profile.Ok? then OrEmpty(profile.value.avatarUrl) else "");
    }

    /** `handleToggleHidden`: the flag becomes the negation of the one shown; both lists become the
        updated `posts`. */
    method HandleToggleHidden(store: Store, postId: string, hidden: bool, fail: bool)
      modifies this`posts, this`filteredPosts, store`posts
      ensures fail ==> posts == old(posts) && filteredPosts == old(filteredPosts) && store.posts == old(store.posts)
      ensures !fail ==> (store.posts == UpdateWhere(old(store.posts), postId, SetHidden(!hidden))
        && posts == filteredPosts == UpdateWhere(old(posts), postId, SetHidden(!hidden)))
    {
      var ok := store.UpdatePost(postId, SetHidden(!hidden), fail);
      if ok {
        posts := UpdateWhere(posts, postId, SetHidden(!hidden));
        filteredPosts := posts;
      }
    }

    /** `handleCommentDelete`: the comment at `index` is dropped from the post on the page. */
    method HandleCommentDelete(store: Store, postId: string, index: int, fail: bool)
      modifies this`posts, this`filteredPosts, store`posts
      ensures FindPost(old(posts), postId).None? || fail ==>
        posts == old(posts) && filteredPosts == old(filteredPosts) && store.posts == old(store.posts)
      ensures FindPost(old(posts), postId).Some? && !fail ==>
        var cs := RemoveAt(FindPost(old(posts), postId).value.comments, index);
        store.posts == UpdateWhere(old(store.posts), postId, SetComments(cs))
        && posts == UpdateWhere(old(posts), postId, SetComments(cs))
        && filteredPosts == UpdateWhere(old(filteredPosts), postId, SetComments(cs))
    {
      var found := FindPost(posts, postId);
      if found.Some? {
        var cs := RemoveAt(found.value.comments, index);
        var ok := store.UpdatePost(postId, SetComments(cs), fail);
        if ok {
          posts := UpdateWhere(posts, postId, SetComments(cs));
          filteredPosts := UpdateWhere(filteredPosts, postId, SetComments(cs));
        }
      }
    }

    /** `handleLike`: record a like dated `jstDate` with '/' turned into '-', read the stored count,
        store it plus one, and only then mark the post liked and show the new count. */
    method HandleLike(store: Store, postId: string, jstDate: string, insertFails: bool, fetchFails: bool, updateFails: bool)
      returns (outcome: LikeOutcome)
      modifies this`posts, this`filteredPosts, this`likedPosts, store`likes, store`posts
      ensures outcome == Skipped <==> !LikeProceeds(old(session), old(posts), old(likedPosts), postId)
      ensures store.likes == if outcome == Skipped || outcome == InsertFailed then old(store.likes)
        else old(store.likes) + [Like(postId, old(session).value, ReplaceAll(jstDate, '/', '-'))]
      ensures outcome == FetchFailed <==> (outcome != Skipped && !insertFails
        && (fetchFails || |RowsWithId(old(store.posts), postId)| != 1))
      ensures outcome.Liked? ==>
        |RowsWithId(old(store.posts), postId)| == 1
        && outcome.count == NextIine(RowsWithId(old(store.posts), postId)[0].iine)
        && store.posts == UpdateWhere(old(store.posts), postId, SetIine(outcome.count))
        && likedPosts == old(likedPosts) + {postId}
        && posts == UpdateWhere(old(posts), postId, SetIine(outcome.count))
        && filteredPosts == UpdateWhere(old(filteredPosts), postId, SetIine(outcome.count))
      ensures !outcome.Liked? ==> (likedPosts == old(likedPosts) && posts == old(posts)
        && filteredPosts == old(filteredPosts) && store.posts == old(store.posts))
      ensures outcome.Liked? <==> outcome != Skipped && !insertFails && outcome != FetchFailed && !updateFails
    {
      if !LikeProceeds(session, posts, likedPosts, postId) {
        return Skipped;
      }
      var ok := store.InsertLike(Like(postId, session.value, ReplaceAll(jstDate, '/', '-')), insertFails);
      if !ok {
        return InsertFailed;
      }
      var r := store.SelectIine(postId, fetchFails);
      if r.Err? {
        return FetchFailed;
      }
      var count := NextIine(r.value);
      ok := store.UpdatePost(postId, SetIine(count), updateFails);
      if !ok {
        return UpdateFailed;
      }
      likedPosts := likedPosts + {postId};
      posts := UpdateWhere(posts, postId, SetIine(count));
      filteredPosts := UpdateWhere(filteredPosts, postId, SetIine(count));
      return Liked(count);
    }

    /** `handleDelete`: refused while the post's file is still there; otherwise the post leaves the
        store and both lists become the remaining `posts`. */
    method HandleDelete(store: Store, postId: string, fail: bool) returns (deleted: bool)
      modifies this`posts, this`filteredPosts, store`posts
      ensures deleted <==> !DeleteRefused(FindPost(old(posts), postId)) && !fail
      ensures !deleted ==> posts == old(posts) && filteredPosts == old(filteredPosts) && store.posts == old(store.posts)
      ensures deleted ==> (store.posts == WithoutPost(old(store.posts), postId)
        && posts == filteredPosts == WithoutPost(old(posts), postId))
    {
      if DeleteRefused(FindPost(posts, postId)) {
        return false;
      }
      deleted := store.DeletePost(postId, fail);
      if deleted {
        posts := WithoutPost(posts, postId);
        filteredPosts := posts;
      }
    }

    /** `handleDeleteFile`: remove the stored file behind `fileUrl` if it is there, then mark the
        post's file deleted on the page (the post row in the store is not updated). */
    method HandleDeleteFile(store: Store, postId: string, fileUrl: string, listFails: bool, removeFails: bool)
      returns (outcome: FileDeleteOutcome)
      modifies this`posts, this`filteredPosts, store`files
      ensures outcome == ListFailed <==> listFails
      ensures outcome == Missing <==> !listFails && StoredFile(PostFiles, StoragePath(fileUrl)) !in old(store.files)
      ensures outcome.FileDeleted? ==> (outcome.path == StoragePath(fileUrl)
        && store.files == old(store.files) - {StoredFile(PostFiles, outcome.path)}
        && posts == filteredPosts == UpdateWhere(old(posts), postId, ClearFile))
      ensures !outcome.FileDeleted? ==> store.files == old(store.files) && posts == old(posts) && filteredPosts == old(filteredPosts)
      ensures outcome == RemoveFailed <==> !listFails && StoredFile(PostFiles, StoragePath(fileUrl)) in old(store.files) && removeFails
    {
      var path := StoragePath(fileUrl);
      var listed := store.Exists(PostFiles, path, listFails);
      if listed.Err? {
        return ListFailed;
      }
      if !listed.value {
        return Missing;
      }
      var ok := store.Remove(PostFiles, path, removeFails);
      if !ok {
        return RemoveFailed;
      }
      posts := UpdateWhere(posts, postId, ClearFile);
      filteredPosts := posts;
      return FileDeleted(path);
    }
  }

  /** A like never shrinks the liked set, and a like that went through raised the stored count of
      the only row carrying that id by exactly one. */
  lemma LikeRaisesCountByOne(posts: seq<Post>, postId: string, count: int)
    requires |RowsWithId(posts, postId)| == 1
    requires count == NextIine(RowsWithId(posts, postId)[0].iine)
    ensures var row := RowsWithId(posts, postId)[0];
      var after := RowsWithId(UpdateWhere(posts, postId, SetIine(count)), postId);
      after == [row.(iine := Some(count))]
      && count == (if row.iine.Some? then row.iine.value else 0) + 1
  {
    UpdateRowsWithId(posts, postId, SetIine(count));
  }

  /** The rows with an id after an update are those rows, patched. */
  lemma {:induction false} UpdateRowsWithId(posts: seq<Post>, id: string, patch: PostPatch)
    ensures RowsWithId(UpdateWhere(posts, id, patch), id) == PatchAll(RowsWithId(posts, id), patch)
    decreases |posts|
  {
    if posts != [] {
      UpdateRowsWithId(posts[1..], id, patch);
      var u := UpdateWhere(posts, id, patch);
      assert u[1..] == UpdateWhere(posts[1..], id, patch);
      assert u[0] == if posts[0].id == id then Patched(posts[0], patch) else posts[0];
      if posts[0].id == id {
        assert RowsWithId(posts, id) == [posts[0]] + RowsWithId(posts[1..], id);
        assert RowsWithId(u, id) == [u[0]] + RowsWithId(u[1..], id);
        assert PatchAll([posts[0]] + RowsWithId(posts[1..], id), patch)
          == [Patched(posts[0], patch)] + PatchAll(RowsWithId(posts[1..], id), patch);
      } else {
        assert RowsWithId(posts, id) == RowsWithId(posts[1..], id);
        assert RowsWithId(u, id) == RowsWithId(u[1..], id);
      }
    }
  }

  function PatchAll(posts: seq<Post>, patch: PostPatch): (r: seq<Post>)
    ensures |r| == |posts| && forall i :: 0 <= i < |posts| ==> r[i] == Patched(posts[i], patch)
  {
    if posts == [] then [] else [Patched(posts[0], patch)] + PatchAll(posts[1..], patch)
  }
}
