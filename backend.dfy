/** The hosted backend the components talk to, as in-memory state: the `post`, `profile` and `like`
    tables, the `post_files` and `avatars` storage buckets, and the auth accounts. Every call takes a
    `fail` flag standing for whatever makes the hosted call answer with an error (network, policy,
    quota); a failing call changes nothing. Rows come back in the order the model keeps them. */
module Backend {
  import opened Base

  /** One entry of a post's `comments` column; `avatarUrl` is `null` when the entry stores none. */
  datatype Comment = Comment(userId: string, text: string, createdAt: string, nickname: string, avatarUrl: Option<string>)

  /** A row of the `post` table; `isFileDeleted` is the client-side mark set after a file delete
      (an absent mark reads as false). */
  datatype Post = Post(
    id: string,
    title: string,
    body: string,
    comments: seq<Comment>,
    iine: Option<int>,
    hidden: bool,
    createdDate: string,
    createdTime: string,
    createdBy: string,
    fileUrl: Option<string>,
    categoryId: string,
    isFileDeleted: bool)

  /** A row of the `profile` table. */
  datatype ProfileRow = ProfileRow(id: string, role: Option<string>, nickname: Option<string>,
                                   avatarUrl: Option<string>, createdAt: string)

  /** A row of the `like` table. */
  datatype Like = Like(postId: string, userId: string, createdAt: string)

  /** An auth account as `auth.admin.listUsers` reports it. */
  datatype Account = Account(id: string, email: string)

  datatype Bucket = PostFiles | Avatars

  datatype StoredFile = StoredFile(bucket: Bucket, path: string)

  /** The column changes the components send with `update(...).eq('id', ...)`. */
  datatype PostPatch = SetComments(cs: seq<Comment>) | SetHidden(h: bool) | SetIine(n: int) | ClearFile

  function Patched(p: Post, patch: PostPatch): (q: Post)
    ensures q.id == p.id && q.createdBy == p.createdBy && q.title == p.title && q.categoryId == p.categoryId
  {
    match patch
    case SetComments(cs) => p.(comments := cs)
    case SetHidden(h) => p.(hidden := h)
    case SetIine(n) => p.(iine := Some(n))
    case ClearFile => p.(fileUrl := Some(""), isFileDeleted := true)
  }

  /** `posts.map(post => post.id === id ? { ...post, <patch> } : post)`: every row with that id is
      patched, all other rows stay as they are, and the order is kept. */
  function UpdateWhere(posts: seq<Post>, id: string, patch: PostPatch): (r: seq<Post>)
    ensures |r| == |posts|
    ensures forall i :: 0 <= i < |r| && posts[i].id == id ==> r[i] == Patched(posts[i], patch)
    ensures forall i :: 0 <= i < |r| && posts[i].id != id ==> r[i] == posts[i]
  {
    if posts == [] then []
    else [if posts[0].id == id then Patched(posts[0], patch) else posts[0]] + UpdateWhere(posts[1..], id, patch)
  }

  /** The ids of a row sequence. */
  function Ids(posts: seq<Post>): (r: seq<string>)
    ensures |r| == |posts| && forall i :: 0 <= i < |posts| ==> r[i] == posts[i].id
  {
    if posts == [] then [] else [posts[0].id] + Ids(posts[1..])
  }

  /** The primary key of the `post` table. */
  predicate UniqueIds(posts: seq<Post>) {
    forall i, j :: 0 <= i < j < |posts| ==> posts[i].id != posts[j].id
  }

  /** An update leaves every id, hence the key, as it was. */
  lemma UpdateKeepsIds(posts: seq<Post>, id: string, patch: PostPatch)
    ensures Ids(UpdateWhere(posts, id, patch)) == Ids(posts)
    ensures UniqueIds(posts) ==> UniqueIds(UpdateWhere(posts, id, patch))
  {
    assert forall i :: 0 <= i < |posts| ==> UpdateWhere(posts, id, patch)[i].id == posts[i].id;
  }

  /** `posts.find(post => post.id === id)` */
  function FindPost(posts: seq<Post>, id: string): (r: Option<Post>)
    ensures r.Some? ==> r.value in posts && r.value.id == id
    ensures r.None? <==> forall p :: p in posts ==> p.id != id
  {
    if posts == [] then None
    else if posts[0].id == id then Some(posts[0])
    else FindPost(posts[1..], id)
  }

  /** With a unique key, a lookup finds exactly the row carrying that id. */
  lemma FindUnique(posts: seq<Post>, i: nat)
    requires UniqueIds(posts) && i < |posts|
    ensures FindPost(posts, posts[i].id) == Some(posts[i])
  {
  }

  /** `posts.filter(post => post.id !== id)` */
  function WithoutPost(posts: seq<Post>, id: string): (r: seq<Post>)
    ensures forall p :: p in r <==> p in posts && p.id != id
    ensures IsSubsequence(r, posts)
  {
    Filter(posts, (p: Post) => p.id != id)
  }

  /** The rows a `select` with `.eq('id', id)` returns. */
  function RowsWithId(posts: seq<Post>, id: string): (r: seq<Post>)
    ensures forall p :: p in r <==> p in posts && p.id == id
    ensures IsSubsequence(r, posts)
  {
    Filter(posts, (p: Post) => p.id == id)
  }

  /** The rows `.eq('category_id', c)` keeps, when a category is given at all. */
  function InCategory(posts: seq<Post>, cat: Option<string>): (r: seq<Post>)
    ensures Truthy(cat) ==> forall p :: p in r <==> p in posts && p.categoryId == cat.value
    ensures Truthy(cat) ==> IsSubsequence(r, posts)
    ensures Truthy(cat) ==> forall p :: multiset(r)[p] == if p.categoryId == cat.value then multiset(posts)[p] else 0
    ensures !Truthy(cat) ==> r == posts
  {
    if Truthy(cat) then
      FilterCounts(posts, (p: Post) => p.categoryId == cat.value);
      Filter(posts, (p: Post) => p.categoryId == cat.value)
    else posts
  }

  /** `.range(from, to)`: rows `from` to `to` inclusive, cut off at the end of the table. */
  function RangeRows(rows: seq<Post>, from: nat, to: int): (r: seq<Post>)
    ensures |r| <= |rows|
    ensures from <= to + 1 && to < |rows| ==> r == rows[from..to + 1]
    ensures from <= to + 1 && from <= |rows| <= to ==> r == rows[from..]
    ensures |rows| <= from || to < from ==> r == []
  {
    var lo := if from < |rows| then from else |rows|;
    var hi := if to + 1 < lo then lo else if to + 1 < |rows| then to + 1 else |rows|;
    rows[lo..hi]
  }

  /** `s.filter(x => x !== id)`-style scrub of the comments whose author is `userId`. */
  function ScrubComments(cs: seq<Comment>, userId: string): (r: seq<Comment>)
    ensures forall c :: c in r <==> c in cs && c.userId != userId
    ensures IsSubsequence(r, cs)
  {
    Filter(cs, (c: Comment) => c.userId != userId)
  }

  /** The profile rows with a given id. */
  function ProfilesWithId(rows: seq<ProfileRow>, id: string): (r: seq<ProfileRow>)
    ensures forall p :: p in r <==> p in rows && p.id == id
    ensures IsSubsequence(r, rows)
  {
    Filter(rows, (p: ProfileRow) => p.id == id)
  }

  /** `profile.update({ avatar_url | role }).eq('id', id)` */
  function UpdateProfiles(rows: seq<ProfileRow>, id: string, f: ProfileRow -> ProfileRow): (r: seq<ProfileRow>)
    ensures |r| == |rows|
    ensures forall i :: 0 <= i < |r| && rows[i].id == id ==> r[i] == f(rows[i])
    ensures forall i :: 0 <= i < |r| && rows[i].id != id ==> r[i] == rows[i]
  {
    if rows == [] then []
    else [if rows[0].id == id then f(rows[0]) else rows[0]] + UpdateProfiles(rows[1..], id, f)
  }

  function SetAvatar(url: Option<string>): ProfileRow -> ProfileRow
  {
    (p: ProfileRow) => p.(avatarUrl := url)
  }

  function SetRole(role: string): ProfileRow -> ProfileRow
  {
    (p: ProfileRow) => p.(role := Some(role))
  }

  /** The project's address, from which `getPublicUrl` builds the public address of a stored file. */
  const ProjectRef := "nywntdbboymxrnrulmif"
  const ProjectUrl := "https://" + ProjectRef + ".supabase.co"

  function BucketName(bucket: Bucket): string
  {
    if bucket == PostFiles then "post_files" else "avatars"
  }

  /** The public folder of a bucket. */
  function BucketUrl(bucket: Bucket): string
  {
    ProjectUrl + "/storage/v1/object/public/" + BucketName(bucket)
  }

  /** `getPublicUrl(path).data.publicUrl` */
  function PublicUrl(bucket: Bucket, path: string): (r: string)
    ensures |r| > |path| && r[|r| - |path|..] == path
  {
    BucketUrl(bucket) + "/" + path
  }

  /** The address under which FileUploadWithPost.tsx records an uploaded video: the public address of
      `public/<fileName>` in `post_files` with a `?t=<stamp>` query. */
  function PostFileUrl(fileName: string, stamp: string): string
  {
    PublicUrl(PostFiles, "public/" + fileName) + "?t=" + stamp
  }

  class Store {
    var posts: seq<Post>
    var profiles: seq<ProfileRow>
    var likes: seq<Like>
    var files: set<StoredFile>
    var accounts: seq<Account>

    constructor (posts: seq<Post>, profiles: seq<ProfileRow>, likes: seq<Like>, files: set<StoredFile>, accounts: seq<Account>)
      ensures this.posts == posts && this.profiles == profiles && this.likes == likes
      ensures this.files == files && this.accounts == accounts
    {
      this.posts := posts;
      this.profiles := profiles;
      this.likes := likes;
      this.files := files;
      this.accounts := accounts;
    }

    /** `post.select('*', { count: 'exact' }).range(from, to)` with the optional category filter:
        the rows of the page and the number of rows the filter keeps. */
    method SelectPage(cat: Option<string>, from: nat, to: int, fail: bool) returns (r: Result<(seq<Post>, nat)>)
      ensures r.Ok? <==> !fail
      ensures r.Ok? ==> r.value.0 == RangeRows(InCategory(posts, cat), from, to)
      ensures r.Ok? ==> r.value.1 == |InCategory(posts, cat)|
    {
      if fail {
        return Err;
      }
      var rows := InCategory(posts, cat);
      return Ok((RangeRows(rows, from, to), |rows|));
    }

    /** `post.update(patch).eq('id', id)`; no row with that id is not an error. */
    method UpdatePost(id: string, patch: PostPatch, fail: bool) returns (ok: bool)
      modifies this`posts
      ensures ok == !fail
      ensures posts == if ok then UpdateWhere(old(posts), id, patch) else old(posts)
    {
      if fail {
        return false;
      }
      posts := UpdateWhere(posts, id, patch);
      return true;
    }

    /** `post.delete().eq('id', id)` */
    method DeletePost(id: string, fail: bool) returns (ok: bool)
      modifies this`posts
      ensures ok == !fail
      ensures posts == if ok then WithoutPost(old(posts), id) else old(posts)
    {
      if fail {
        return false;
      }
      posts := WithoutPost(posts, id);
      return true;
    }

    /** `post.insert(row)`; the row's id is the one the database generates, and a clash with an
        existing id is a key violation. */
    method InsertPost(p: Post, fail: bool) returns (ok: bool)
      modifies this`posts
      ensures ok <==> !fail && p.id !in Ids(old(posts))
      ensures posts == if ok then old(posts) + [p] else old(posts)
      ensures UniqueIds(old(posts)) ==> UniqueIds(posts)
    {
      if fail || p.id in Ids(posts) {
        return false;
      }
      posts := posts + [p];
      return true;
    }

    /** `post.select('iine').eq('id', id).single()`: an error unless exactly one row matches. */
    method SelectIine(id: string, fail: bool) returns (r: Result<Option<int>>)
      ensures r.Ok? <==> !fail && |RowsWithId(posts, id)| == 1
      ensures r.Ok? ==> r.value == RowsWithId(posts, id)[0].iine
    {
      var rows := RowsWithId(posts, id);
      if fail || |rows| != 1 {
        return Err;
      }
      return Ok(rows[0].iine);
    }

    /** `post.select('id').eq('created_by', userId)` */
    method SelectPostsBy(userId: string, fail: bool) returns (r: Result<seq<Post>>)
      ensures r.Ok? <==> !fail
      ensures r.Ok? ==> forall p :: p in r.value <==> p in posts && p.createdBy == userId
    {
      if fail {
        return Err;
      }
      return Ok(Filter(posts, (p: Post) => p.createdBy == userId));
    }

    /** `post.select('id, comments').filter('comments', 'cs', [{ user_id }])`: the rows holding a
        comment by `userId`. */
    method SelectPostsMentioning(userId: string, fail: bool) returns (r: Result<seq<Post>>)
      ensures r.Ok? <==> !fail
      ensures r.Ok? ==> r.value == Mentioning(posts, userId)
    {
      if fail {
        return Err;
      }
      return Ok(Mentioning(posts, userId));
    }

    /** `like.select(...).eq('post_id', postId).eq('user_id', userId)` */
    method SelectLikes(postId: Option<string>, userId: string, fail: bool) returns (r: Result<seq<Like>>)
      ensures r.Ok? <==> !fail
      ensures r.Ok? ==> forall l :: l in r.value <==> l in likes && l.userId == userId && (postId.Some? ==> l.postId == postId.value)
    {
      if fail {
        return Err;
      }
      return Ok(Filter(likes, (l: Like) => l.userId == userId && (postId.Some? ==> l.postId == postId.value)));
    }

    /** `like.insert([row])` */
    method InsertLike(l: Like, fail: bool) returns (ok: bool)
      modifies this`likes
      ensures ok == !fail
      ensures likes == if ok then old(likes) + [l] else old(likes)
    {
      if fail {
        return false;
      }
      likes := likes + [l];
      return true;
    }

    /** `profile.select(...).eq('id', id).single()`: an error unless exactly one row matches. */
    method SelectProfile(id: string, fail: bool) returns (r: Result<ProfileRow>)
      ensures r.Ok? <==> !fail && |ProfilesWithId(profiles, id)| == 1
      ensures r.Ok? ==> r.value == ProfilesWithId(profiles, id)[0] && r.value in profiles && r.value.id == id
    {
      var rows := ProfilesWithId(profiles, id);
      if fail || |rows| != 1 {
        return Err;
      }
      return Ok(rows[0]);
    }

    /** `profile.select('id, role, nickname, created_at')` */
    method SelectProfiles(fail: bool) returns (r: Result<seq<ProfileRow>>)
      ensures r.Ok? <==> !fail
      ensures r.Ok? ==> r.value == profiles
    {
      if fail {
        return Err;
      }
      return Ok(profiles);
    }

    /** `profile.update(...).eq('id', id)` */
    method UpdateProfile(id: string, f: ProfileRow -> ProfileRow, fail: bool) returns (ok: bool)
      modifies this`profiles
      ensures ok == !fail
      ensures profiles == if ok then UpdateProfiles(old(profiles), id, f) else old(profiles)
    {
      if fail {
        return false;
      }
      profiles := UpdateProfiles(profiles, id, f);
      return true;
    }

    /** `storage.from(bucket).upload(path, file)`: an existing path is refused. */
    method Upload(bucket: Bucket, path: string, fail: bool) returns (ok: bool)
      modifies this`files
      ensures ok <==> !fail && StoredFile(bucket, path) !in old(files)
      ensures files == if ok then old(files) + {StoredFile(bucket, path)} else old(files)
    {
      if fail || StoredFile(bucket, path) in files {
        return false;
      }
      files := files + {StoredFile(bucket, path)};
      return true;
    }

    /** `storage.from(bucket).remove([path])`: removing a missing path is not an error. */
    method Remove(bucket: Bucket, path: string, fail: bool) returns (ok: bool)
      modifies this`files
      ensures ok == !fail
      ensures files == if ok then old(files) - {StoredFile(bucket, path)} else old(files)
    {
      if fail {
        return false;
      }
      files := files - {StoredFile(bucket, path)};
      return true;
    }

    /** `storage.from(bucket).list('', { search: path })`, reduced to whether the path is stored. */
    method Exists(bucket: Bucket, path: string, fail: bool) returns (r: Result<bool>)
      ensures r.Ok? <==> !fail
      ensures r.Ok? ==> (r.value <==> StoredFile(bucket, path) in files)
    {
      if fail {
        return Err;
      }
      return Ok(StoredFile(bucket, path) in files);
    }

    /** `auth.admin.listUsers()` */
    method ListAccounts(fail: bool) returns (r: Result<seq<Account>>)
      ensures r.Ok? <==> !fail
      ensures r.Ok? ==> r.value == accounts
    {
      if fail {
        return Err;
      }
      return Ok(accounts);
    }

    /** `auth.admin.deleteUser(id)` */
    method DeleteAccount(id: string, fail: bool) returns (ok: bool)
      modifies this`accounts
      ensures ok == !fail
      ensures accounts == if ok then WithoutAccount(old(accounts), id) else old(accounts)
    {
      if fail {
        return false;
      }
      accounts := WithoutAccount(accounts, id);
      return true;
    }
  }

  /** The `cs` (contains) filter on `comments`: some comment is by `userId`. */
  predicate Mentions(p: Post, userId: string) {
    exists i :: 0 <= i < |p.comments| && p.comments[i].userId == userId
  }

  /** `.filter('comments', 'cs', [{ user_id }])`: the rows, in order, with a comment by the user. */
  function Mentioning(posts: seq<Post>, userId: string): (r: seq<Post>)
    ensures forall p :: p in r <==> p in posts && Mentions(p, userId)
    ensures IsSubsequence(r, posts)
  {
    Filter(posts, (p: Post) => Mentions(p, userId))
  }

  /** The accounts, in order, without the one with that id. */
  function WithoutAccount(accounts: seq<Account>, id: string): (r: seq<Account>)
    ensures forall a :: a in r <==> a in accounts && a.id != id
    ensures IsSubsequence(r, accounts)
  {
    Filter(accounts, (a: Account) => a.id != id)
  }
}
