# Snap Stream, the handler logic

Snap Stream is a video-sharing site. Its React components call a hosted Supabase backend. This project models the deterministic logic inside the components' event handlers and proves properties of it. The backend is replaced by in-memory state: the `post`, `profile` and `like` tables, the `post_files` and `avatars` storage buckets, and the auth accounts.

Every backend call takes a `fail` flag. It stands for whatever makes the hosted call answer with an error (network, policy, quota). A failing call changes nothing. The clock, the locale and the database's id generator become string parameters (`now`, `stamp`, `jstDate`, `newId`).

The modules follow the components:

- `Base`: the `Option` and `Result` types, JavaScript truthiness, and `Array.prototype.filter` with its properties.
- `Text`: JavaScript string operations on `seq<char>`: `trim`, ASCII `toLowerCase`, `indexOf`, `includes`, `replace`, `split`, `join`, `split(/\s+/)` and `pop`.
- `YouTube`: the YouTube link regular expression that PostList.tsx and FileUploadWithPost.tsx share. It covers all four alternatives, the lazy and greedy quantifiers with backtracking, and the leftmost-match rule.
- `Backend`: the tables, buckets and accounts as a `Store` class, one method per hosted call.
- `PostFeed` (PostList.tsx): paging, the category filter, comments, the hidden flag, likes, post and file deletion.
- `UploadForm` (FileUploadWithPost.tsx): the file checks, the upload, the YouTube link rewrite and the ordered checks of a post submit.
- `UserAdmin` (ListUsers.tsx): the remarks map, the search, the paging, role changes and list deletion.
- `AccountDeletion` (DeleteUser.tsx): the guarded deletion of a user, including the comment-scrub loop.
- `LikeButton` (LikeButton.tsx): the like button's flags and the steps of a like.
- `AvatarUpload` (AvatarUploadModal.tsx): avatar replacement and deletion, and the file-name derivations.
- `Header` (ClientHeader.tsx): the header chosen for each pathname.

Component state a handler changes step by step is a class with the component's fields: `Feed`, `Form`, `UserList`, `Button` and `Modal`. Each handler is a method whose `ensures` states the complete new state in terms of the old one. The pure parts are functions, and lemmas state their properties.

## Model

| member | source | states |
|---|---|---|
| `Base.Filter` | src/app/components/ListUsers.tsx:75-76 | `Array.prototype.filter` keeps exactly the accepted elements, in their order (a subsequence), never more than the input, and everything when all are accepted |
| `Base.FilterCommutes` | src/app/components/ListUsers.tsx:75-76 | two filters give the same result in either order |
| `Base.FilterCounts` | src/app/components/PostList.tsx:84-86 | a filter keeps each accepted element as many times as it occurs and none of the others |
| `Base.OrEmpty` | src/app/components/PostList.tsx:179 | `s \|\| ''` is the string when it is truthy and '' otherwise |
| `Text.Trim` | src/app/components/PostList.tsx:165 | what `trim` keeps is one slice of the input with only white space before and after it, that slice neither starts nor ends with white space, and it is empty exactly when the input is all white space |
| `Text.TrimStart` | src/app/components/ListUsers.tsx:98 | the leading half of `trim`: the result is no longer than the input and ends where it ends, the dropped prefix is all white space, and the result does not start with white space |
| `Text.TrimStartSuffix` | src/app/components/ListUsers.tsx:98 | what the leading half of `trim` keeps is exactly the suffix of the input after the dropped prefix |
| `Text.TrimEnd` | src/app/components/ListUsers.tsx:98 | the trailing half of `trim`: the result is a prefix of the input, the dropped suffix is all white space, and the result does not end with white space |
| `Text.ToLower` | src/app/components/ListUsers.tsx:98 | lower-casing keeps the length, leaves no ASCII capital, turns each capital into the small letter at the same place in the alphabet, and keeps every other character where it was |
| `Text.LowerChar` | src/app/components/ListUsers.tsx:105-109 | the result is never an ASCII capital; a capital becomes the small letter at the same place in the alphabet (32 code points up), and every other character stays |
| `Text.ToLowerIdempotent` | src/app/components/ListUsers.tsx:98 | lower-casing twice is lower-casing once |
| `Text.ToLowerKeepsSpace` | src/app/components/ListUsers.tsx:98 | a string is all white space exactly when its lower-cased form is |
| `Text.IndexOf` | src/app/components/FileUploadWithPost.tsx:153 | the answer is an occurrence of the pattern with none before it, or there is no occurrence at all |
| `Text.IndexOfAt` | src/app/components/FileUploadWithPost.tsx:153 | a pattern occurring at `k` and nowhere earlier is found at `k` |
| `Text.ReplaceFirst` | src/app/components/FileUploadWithPost.tsx:153 | `replace` with a string pattern: when the pattern occurs at `k` and at no earlier position, the result is the input before `k`, the replacement, and the input after that occurrence; when it occurs nowhere, the input itself |
| `Text.Split` | src/app/components/FileUploadWithPost.tsx:56 | `split` with a one-character separator gives at least one part |
| `Text.SplitPieces` | src/app/components/FileUploadWithPost.tsx:56 | no part of a split holds the separator |
| `Text.JoinSplit` | src/app/components/PostList.tsx:285 | joining the parts of a split with the same separator gives back the string |
| `Text.SplitJoin` | src/app/components/PostList.tsx:364 | splitting a join of separator-free parts gives back the parts |
| `Text.SplitConcat` | src/app/components/PostList.tsx:364 | splitting at one occurrence of the separator splits the two sides independently |
| `Text.LastSegmentIsSuffix` | src/app/components/AvatarUploadModal.tsx:82 | `split(c).pop()` is the longest suffix without `c`, preceded by `c` when it is not the whole string |
| `Text.LastSegmentAfter` | src/app/components/AvatarUploadModal.tsx:130 | the last segment of `a + c + b`, with `b` free of `c`, is `b` |
| `Text.SplitSpaces` | src/app/components/ListUsers.tsx:98 | `split(/\s+/)` gives at least one piece, none holding white space |
| `Text.SplitSpacesGlue` | src/app/components/ListUsers.tsx:98 | there are runs of white space, one fewer than the pieces, each non-empty and all white space, that glued between the pieces give back the string |
| `Text.SplitSpacesInner` | src/app/components/ListUsers.tsx:98 | only the first and the last piece can be empty, and the first is not when the string starts with no white space |
| `Text.SplitSpacesRuns` | src/app/components/ListUsers.tsx:98 | the pieces are the string cut at its maximal runs of white space (`IsSpaceSplit`) |
| `Text.SpaceSplitUnique` | src/app/components/ListUsers.tsx:98 | a string has only one such cut: two cuts at maximal runs of white space have the same pieces and the same runs |
| `Text.TrimmedWords` | src/app/components/ListUsers.tsx:98 | `trim().split(/\s+/)` gives at least one word and no word holds white space; a blank string gives only the empty word, and any other string only non-empty words |
| `Text.SplitTrimmedWords` | src/app/components/ListUsers.tsx:98 | a trimmed query splits into `['']` when it is empty and into non-empty words otherwise |
| `Text.ReplaceAllChars` | src/app/components/FileUploadWithPost.tsx:202 | `split('/').join('-')` keeps the length and replaces every '/' by '-', one position at a time |
| `YouTube.SegmentRun` | src/app/components/PostList.tsx:37 | `[^\/\n\s]+` consumes the longest run without a slash or white space |
| `YouTube.NonSpaceRun` | src/app/components/PostList.tsx:37 | `\S+` consumes the longest run without white space |
| `YouTube.CoreAt` | src/app/components/PostList.tsx:37 | a match at a position captures a video id (the 11 characters of `[a-zA-Z0-9_-]` that `IdAt` reads), and no match starts where there is no 'y' |
| `YouTube.FirstMatch` | src/app/components/PostList.tsx:37 | the leftmost match captures a video id |
| `YouTube.FirstMatchTriesEveryPosition` | src/app/components/PostList.tsx:37 | the leftmost-match scan tries the pattern at every position in turn and stops at the first that matches |
| `YouTube.MatchId` | src/app/components/PostList.tsx:37 | `url.match(re)?.[1]` is a video id |
| `YouTube.GetYouTubeEmbedUrl` | src/app/components/PostList.tsx:406-409 | an address is answered exactly when it is a YouTube link, and the answer is `https://www.youtube.com/embed/` followed by the captured id |
| `YouTube.ExtractEmbedId` | src/app/components/FileUploadWithPost.tsx:223-226 | the result is the captured 11-character id of a YouTube link, and '' for any other address |
| `YouTube.ExtractEmbedIdOfEmbed` | src/app/components/FileUploadWithPost.tsx:223-226 | the id taken back from `https://www.youtube.com/embed/<id>` is `<id>` |
| `YouTube.EmbedUrlKeepsId` | src/app/components/PostList.tsx:406-409 | the embed address built for a YouTube link names the same video as the link |
| `YouTube.IdChars` | src/app/components/PostList.tsx:37 | a video id holds no '/', '?', '&' or white space |
| `YouTube.SkipNoY` | src/app/components/PostList.tsx:37 | the leftmost-match scan passes over positions without a 'y' |
| `YouTube.NoSlashNoMatch` | src/app/components/PostList.tsx:37 | an address with no slash from some point on has no match there |
| `YouTube.MatchEmbedForm` | src/app/components/PostList.tsx:37 | the embed form `https://www.youtube.com/embed/<id>` captures its own id |
| `YouTube.MatchWatchForm` | src/app/components/PostList.tsx:37 | the watch form `https://www.youtube.com/watch?v=<id>` captures its id |
| `YouTube.MatchShortForm` | src/app/components/PostList.tsx:37 | the short form `https://youtu.be/<id>` captures its id |
| `YouTube.EmbedUrlIdempotent` | src/app/components/PostList.tsx:406-409 | building the embed address of an embed address gives the same address |
| `Backend.Patched` | src/app/components/PostList.tsx:199-200 | a patch keeps a row's id, author, title and category |
| `Backend.UpdateWhere` | src/app/components/PostList.tsx:237-239 | `map` with an id test patches every row with that id, leaves every other row, and keeps the order |
| `Backend.UpdateKeepsIds` | src/app/components/PostList.tsx:237-239 | an update keeps the ids of all rows, hence the table's key |
| `Backend.FindPost` | src/app/components/PostList.tsx:181 | `find` gives a row with the id, and none exactly when no row has it |
| `Backend.FindUnique` | src/app/components/PostList.tsx:181 | with unique ids, `find` gives the one row with the id |
| `Backend.WithoutPost` | src/app/components/PostList.tsx:350 | the rows, in order, without those with the id |
| `Backend.RowsWithId` | src/app/components/PostList.tsx:288-292 | the rows with the id, and only those, as a subsequence of the table (so in table order) |
| `Backend.InCategory` | src/app/components/PostList.tsx:84-86 | `.eq('category_id', c)` keeps exactly the rows of the category, as a subsequence of the table and each as often as it occurs there; with no category chosen, all rows |
| `Backend.RangeRows` | src/app/components/PostList.tsx:82 | `.range(from, to)` is the slice from `from` to `to` inclusive, clamped to the rows |
| `Backend.ScrubComments` | src/app/components/DeleteUser.tsx:68 | the comments, in order, without those by the user |
| `Backend.ProfilesWithId` | src/app/components/DeleteUser.tsx:16-20 | the profile rows with the id, and only those, as a subsequence of the table (so in table order) |
| `Backend.UpdateProfiles` | src/app/components/ListUsers.tsx:81-84 | `update(...).eq('id', id)` on the profile table changes every row with the id and no other |
| `Backend.PublicUrl` | src/app/components/AvatarUploadModal.tsx:111-114 | the public address of a stored file ends with its path |
| `Backend.Mentioning` | src/app/components/DeleteUser.tsx:55-58 | the `cs` filter gives, in order, exactly the rows holding a comment by the user |
| `Backend.WithoutAccount` | src/app/components/DeleteUser.tsx:82 | the accounts, in order, without the deleted one |
| `Backend.Store.constructor` | src/app/components/PostList.tsx:55 | the store starts with the given tables, buckets and accounts |
| `Backend.Store.SelectPage` | src/app/components/PostList.tsx:77-88 | a page of the category's rows together with the exact count of all its rows |
| `Backend.Store.UpdatePost` | src/app/components/PostList.tsx:227-230 | an update succeeds unless it fails, and then patches the rows with the id |
| `Backend.Store.DeletePost` | src/app/components/PostList.tsx:340-343 | a delete removes exactly the rows with the id |
| `Backend.Store.InsertPost` | src/app/components/FileUploadWithPost.tsx:208-210 | an insert appends the row, and a duplicate id is refused |
| `Backend.Store.SelectIine` | src/app/components/PostList.tsx:288-292 | `.single()` answers only when exactly one row has the id, with that row's count |
| `Backend.Store.SelectPostsBy` | src/app/components/DeleteUser.tsx:34-37 | the rows the user created |
| `Backend.Store.SelectPostsMentioning` | src/app/components/DeleteUser.tsx:55-58 | the rows holding a comment by the user |
| `Backend.Store.SelectLikes` | src/app/components/LikeButton.tsx:21-25 | the like rows of the user, restricted to the post when one is given |
| `Backend.Store.InsertLike` | src/app/components/LikeButton.tsx:55-57 | an insert appends the like row |
| `Backend.Store.SelectProfile` | src/app/components/DeleteUser.tsx:16-20 | `.single()` answers only when exactly one profile row has the id, with that row |
| `Backend.Store.SelectProfiles` | src/app/components/ListUsers.tsx:45-48 | all profile rows |
| `Backend.Store.UpdateProfile` | src/app/components/AvatarUploadModal.tsx:119-122 | a profile update changes the rows with the id |
| `Backend.Store.Upload` | src/app/components/AvatarUploadModal.tsx:103-105 | an upload adds the file, and a path already stored is refused |
| `Backend.Store.Remove` | src/app/components/AvatarUploadModal.tsx:132-134 | a remove takes the file out, and a missing path is not an error |
| `Backend.Store.Exists` | src/app/components/PostList.tsx:368-371 | the listing tells whether the path is stored |
| `Backend.Store.ListAccounts` | src/app/components/ListUsers.tsx:36 | all auth accounts |
| `Backend.Store.DeleteAccount` | src/app/components/DeleteUser.tsx:82 | the account with the id leaves the list |
| `PostFeed.FetchRange` | src/app/components/PostList.tsx:70-75 | a page asks for exactly two rows, starting at a row index of at least 0 |
| `PostFeed.RowOnOnePage` | src/app/components/PostList.tsx:74-75 | each page starts right after the previous one ends, and row `n` lies on page `n / 2 + 1` and no other |
| `PostFeed.TotalPages` | src/app/components/PostList.tsx:119 | `ceil((count ?? 0) / 2)` is the fewest pages of two rows that hold the count |
| `PostFeed.PagesCoverRows` | src/app/components/PostList.tsx:119 | every row of the count lies on a page from 1 to the page count, and the last page is not empty |
| `PostFeed.FindCategory` | src/app/components/PostList.tsx:134 | `find` on the categories gives one with the id, and none exactly when no category has it |
| `PostFeed.CategorySelection` | src/app/components/PostList.tsx:132-138 | the empty choice selects no category with the label 'ALL'; any other choice selects that id, labelled with the name of the first category with that id when that name is non-empty, and with no label otherwise (in particular when no category has the id) |
| `PostFeed.CategoryLabel` | src/app/components/PostList.tsx:134 | with unique category ids, choosing the id of a category with a non-empty name labels the selection with that name |
| `PostFeed.CommentGuardFinding` | src/app/components/PostList.tsx:165 | with `Draft` the typed text of the post, or none when its box was never touched: an untouched draft passes the guard as written but not the intended guard; on a typed draft both agree and accept exactly the drafts that are not all white space |
| `PostFeed.RemoveAt` | src/app/components/PostList.tsx:250 | dropping comment `i` removes exactly that entry and keeps the order of the rest; an index out of range changes nothing |
| `PostFeed.UploadedVideoBlocksDelete` | src/app/components/PostList.tsx:334-337 | a post with an uploaded video that is not marked deleted cannot be deleted, a post with a YouTube link can, and a post not on the page can |
| `PostFeed.UploadedFileNotYouTube` | src/app/components/PostList.tsx:36-38 | the address of an uploaded video is never taken for a YouTube link |
| `PostFeed.LastTwoOfAppend` | src/app/components/PostList.tsx:364 | `slice(-2)` of a list that ends with `a, b` is `[a, b]` |
| `PostFeed.StoragePathOfUpload` | src/app/components/PostList.tsx:364 | the storage path taken from an uploaded video's address is `public/<file name>`, the path it was uploaded to |
| `PostFeed.UploadUrlShape` | src/app/components/FileUploadWithPost.tsx:137 | an uploaded video's address is the bucket address, then `/public/`, then the file name with its `?t=` query, and after `public/` no '/' follows |
| `PostFeed.SplitPublicTail` | src/app/components/PostList.tsx:364 | `public/<tail>` with no '/' in the tail splits into `public` and the tail |
| `PostFeed.UploadSegments` | src/app/components/PostList.tsx:364 | the '/'-segments of an uploaded video's address end with `public` and the file name with its query |
| `PostFeed.Feed.constructor` | src/app/components/PostList.tsx:41-53 | the initial state: no posts, no likes, no drafts, page 1 of 1, no category, the label '未選択' |
| `PostFeed.Feed.FetchCategories` | src/app/components/PostList.tsx:58-68 | the categories are replaced by a successful answer and kept otherwise |
| `PostFeed.Feed.FetchPosts` | src/app/components/PostList.tsx:72-122 | a successful fetch sets both lists to the page's rows of the category, each comment enriched from its author's profile, and the page count to the count's pages; a failed one changes neither |
| `PostFeed.EnrichComment` | src/app/components/PostList.tsx:96-107 | an enriched comment keeps its author, text and time; its nickname is the author's profile nickname or 'Unknown', and its avatar the profile's address or `null`, both 'Unknown' and `null` unless exactly one profile row has the author's id |
| `PostFeed.EnrichPostsKeeps` | src/app/components/PostList.tsx:94-115 | the enrichment keeps the posts, their ids and order, and everything in them but the comments' nickname and avatar |
| `PostFeed.EnrichIdempotent` | src/app/components/PostList.tsx:94-115 | enriching twice gives the same comments as enriching once |
| `PostFeed.EnrichByAuthor` | src/app/components/PostList.tsx:96-107 | two comments by the same author come out with the same nickname and avatar, whatever each stored before |
| `PostFeed.FetchedCommentsEnriched` | src/app/components/PostList.tsx:190-193 | every comment of a fetched page is already enriched, so the comments written back from the page carry the enrichment's nickname and avatar |
| `PostFeed.Feed.HandleCategoryChange` | src/app/components/PostList.tsx:132-138 | the selection and its label are those of `CategorySelection`, and the page goes back to 1 |
| `PostFeed.Feed.HandlePageChange` | src/app/components/PostList.tsx:140-142 | the current page becomes the one chosen |
| `PostFeed.Feed.LoadSession` | src/app/components/PostList.tsx:144-162 | the session is kept; for a signed-in user the liked set becomes exactly the posts with a like row by that user |
| `PostFeed.Feed.HandleCommentSubmit` | src/app/components/PostList.tsx:164-222 | a comment is added exactly when the draft passes the intended guard, someone is signed in, the post is on the page and the update succeeds; it carries the user, the draft and the time, the nickname of the user's profile row or 'Unknown', and its avatar address or '', goes at the end of the post's comments as the page holds them (enriched by the fetch), and that list is stored and shown in both lists, and the draft is cleared; otherwise nothing changes |
| `PostFeed.Feed.HandleToggleHidden` | src/app/components/PostList.tsx:224-245 | the stored flag of the post becomes the negation of the one shown, and both lists become the updated posts |
| `PostFeed.Feed.HandleCommentDelete` | src/app/components/PostList.tsx:247-268 | the comment at the index leaves the post's comments as the page holds them (enriched by the fetch), and that list is stored and shown in both lists; a post not on the page, or a failed update, changes nothing |
| `PostFeed.Feed.HandleCommentChange` | src/app/components/PostList.tsx:555 | typing into a post's box sets that post's draft and no other |
| `PostFeed.TypedDraftAccepted` | src/app/components/PostList.tsx:555 | once a draft is typed, the intended guard accepts it exactly when it is not all white space, and the other drafts stay |
| `PostFeed.Feed.HandleLike` | src/app/components/PostList.tsx:270-329 | a like is skipped without a session, on one's own post, on a post not on the page and on a liked post; otherwise the like row is inserted, and once the count is read and stored plus one the liked set gains the post and both lists show the new count |
| `PostFeed.Feed.HandleDelete` | src/app/components/PostList.tsx:331-357 | the delete goes through exactly when the guard allows it and the call succeeds; then the post leaves the store and both lists become the remaining posts |
| `PostFeed.Feed.HandleDeleteFile` | src/app/components/PostList.tsx:359-404 | the file at the derived storage path is removed when it is stored, and then the post is marked as having no file in both lists; a listing failure, a missing file or a failed remove changes nothing |
| `PostFeed.LikeRaisesCountByOne` | src/app/components/PostList.tsx:299-304 | after a like the stored count (`NextIine` of the count read) is the old count plus one, a missing count read as 0 |
| `PostFeed.UpdateRowsWithId` | src/app/components/PostList.tsx:301-304 | after an update, the rows with the id are those rows patched |
| `UploadForm.CheckFile` | src/app/components/FileUploadWithPost.tsx:56-70 | a file is refused for its format exactly when its lower-cased extension is not mp4 or mov; it is refused for its size exactly when the format passes and it is over 50 MiB; otherwise it is accepted |
| `UploadForm.AcceptedNameShape` | src/app/components/FileUploadWithPost.tsx:56-58 | an accepted name ends in mp4 or mov in any ASCII case, preceded by a '.' unless that is the whole name |
| `UploadForm.AcceptedName` | src/app/components/FileUploadWithPost.tsx:56-58 | conversely `stem.ext` with a supported extension in any ASCII case is accepted |
| `UploadForm.SizeLimit` | src/app/components/FileUploadWithPost.tsx:31-32 | the limit is 52428800 bytes; a file of exactly that size passes and one byte more does not |
| `UploadForm.PreviewFileName` | src/app/components/FileUploadWithPost.tsx:87 | the derived name holds no '/' and no '?' |
| `UploadForm.PreviewNamesUpload` | src/app/components/FileUploadWithPost.tsx:87 | the name derived from an uploaded video's preview is the stored file name, so the type change removes the file that was uploaded |
| `UploadForm.WatchRewrite` | src/app/components/FileUploadWithPost.tsx:153 | replacing the first `watch?v=` of a watch address gives the embed address of the same video |
| `UploadForm.EmbedRewrite` | src/app/components/FileUploadWithPost.tsx:153 | the rewrite leaves an embed address as it is |
| `UploadForm.CheckPostSubmit` | src/app/components/FileUploadWithPost.tsx:170-188 | the checks run in order (session and preview, uploaded, title, category), and the first that fails decides |
| `UploadForm.CreatedDate` | src/app/components/FileUploadWithPost.tsx:202 | the stored date is the local date with every '/' turned into '-' |
| `UploadForm.Form.constructor` | src/app/components/FileUploadWithPost.tsx:13-27 | the initial state: no file, no preview, no messages, no type, no category, not uploaded |
| `UploadForm.Form.HandleCategoryChange` | src/app/components/FileUploadWithPost.tsx:35-40 | the category becomes the chosen id, and the label is the name of a category with that id, or none when there is no such category |
| `UploadForm.Form.ClearMessages` | src/app/components/FileUploadWithPost.tsx:43-48 | all four messages are cleared |
| `UploadForm.Form.HandleFileChange` | src/app/components/FileUploadWithPost.tsx:50-78 | an accepted file becomes the file with its preview; a refused one sets the matching error and clears the file and the preview; no selection changes nothing |
| `UploadForm.Form.HandleYoutubeUrlChange` | src/app/components/FileUploadWithPost.tsx:80-82 | the link becomes the typed value |
| `UploadForm.Form.HandleFileTypeChange` | src/app/components/FileUploadWithPost.tsx:84-118 | a previewed video's stored file is removed; then the type is set, and the preview, link, file, title, comment, messages and loading flag are reset |
| `UploadForm.Form.HandleUploadSubmit` | src/app/components/FileUploadWithPost.tsx:120-164 | a video is stored under `public/<now>_<name>` and previewed at its public address; a YouTube link is checked, then previewed with `watch?v=` rewritten to `embed/`; each success sets its message and marks the upload done, and each failure its error |
| `UploadForm.Form.HandlePostSubmit` | src/app/components/FileUploadWithPost.tsx:166-220 | a failed check stores nothing and sets its message, except that the missing-upload check only alerts; a passing submit inserts a row with no comments, the preview as its file, the session user as author and the converted date, then reports success or the failure |
| `UserAdmin.RemarksOfKeys` | src/app/components/ListUsers.tsx:53-56 | the map holds an entry exactly for the ids of the profile rows |
| `UserAdmin.RemarksOfValues` | src/app/components/ListUsers.tsx:53-56 | each entry is the remark (`RemarkOf`: role, nickname and creation time, with '未設定' and '名無し' for a missing role and nickname) of the last row with that id |
| `UserAdmin.RemarksOfUnique` | src/app/components/ListUsers.tsx:53-56 | with unique profile ids, a row's entry is that row's remark |
| `UserAdmin.BuildRemarks` | src/app/components/ListUsers.tsx:53-56 | the `forEach` builds the map of `RemarksOf` over all rows |
| `UserAdmin.SearchWords` | src/app/components/ListUsers.tsx:98 | the words are the trimmed, lower-cased query cut at its maximal runs of white space; there is at least one and none holds white space; a blank query gives only the empty word, and any other query gives only non-empty words |
| `UserAdmin.WithoutUser` | src/app/components/ListUsers.tsx:75-76 | the users, in their order, without those with the id |
| `UserAdmin.FilterByWordsIsFilter` | src/app/components/ListUsers.tsx:98-111 | the search is `Array.prototype.filter` with the word matcher |
| `UserAdmin.FilterUsersMeaning` | src/app/components/ListUsers.tsx:98-111 | the search keeps, in their order, exactly the users that every word of the query finds |
| `UserAdmin.BlankQueryKeepsAll` | src/app/components/ListUsers.tsx:98-111 | a query of white space only, the empty one included, keeps every user |
| `UserAdmin.SearchIgnoresQueryCase` | src/app/components/ListUsers.tsx:98 | the search gives the same result for the query and its lower-cased form |
| `UserAdmin.DefaultsAreSearched` | src/app/components/ListUsers.tsx:101 | a user with no entry is searched with the defaults of `ProfileOf`, so is found by the words '名無し' and '未設定' |
| `UserAdmin.DeleteCommutesWithSearch` | src/app/components/ListUsers.tsx:74-77 | deleting from the filtered list gives the same list as searching the reduced users |
| `UserAdmin.PageOf` | src/app/components/ListUsers.tsx:125-126 | page `p` shows the entries from `(p-1)*4` up to `p*4`, at most four of them |
| `UserAdmin.TotalPages` | src/app/components/ListUsers.tsx:127 | `ceil(n / 4)` is the fewest pages of four that hold `n` entries |
| `UserAdmin.PagesCoverList` | src/app/components/ListUsers.tsx:125-127 | the pages from 1 to the page count, one after another, are the filtered list |
| `UserAdmin.EntryOnOnePage` | src/app/components/ListUsers.tsx:125-126 | entry `i` is shown on page `i / 4 + 1` and on no other page |
| `UserAdmin.RoleChange` | src/app/components/ListUsers.tsx:90-93 | the intended role change leaves the user with an entry holding the new role |
| `UserAdmin.RoleChangeMeaning` | src/app/components/ListUsers.tsx:90-93 | the intended role change: the entries are those before plus the user's, only that user's entry changes, it gets the role and keeps its other fields, and a user without an entry gets the defaults of line 101 |
| `UserAdmin.RoleChangeAsWritten` | src/app/components/ListUsers.tsx:90-93 | the role change as written: spreading a missing entry leaves an entry with only the role |
| `UserAdmin.WordCheckAsWritten` | src/app/components/ListUsers.tsx:104-110 | on an entry with every field, one word is checked as the intended search checks it |
| `UserAdmin.RoleChangeFinding` | src/app/components/ListUsers.tsx:108 | after a role change for a user without a profile, a search word found in none of the user's fields reaches the missing nickname and fails |
| `UserAdmin.RoleChangeAgrees` | src/app/components/ListUsers.tsx:90-93 | on an entry built from a profile row, the role change as written and the intended one agree |
| `UserAdmin.UserList.constructor` | src/app/components/ListUsers.tsx:11-16 | the initial state: no users, no remarks, page 1, an empty query, and a consistent search |
| `UserAdmin.UserList.SelectedUsers` | src/app/components/ListUsers.tsx:125-126 | the current page shows at most four users: from page 1 on, the filtered users from `(p-1)*4` up to `p*4`, clamped to the list |
| `UserAdmin.UserList.SearchEffect` | src/app/components/ListUsers.tsx:97-119 | the filtered list becomes the search result and the page goes back to 1 |
| `UserAdmin.UserList.FetchUsers` | src/app/components/ListUsers.tsx:33-66 | the accounts replace the users and the profile rows the remarks, each unless its call fails; the search reruns on what changed |
| `UserAdmin.UserList.HandlePageChange` | src/app/components/ListUsers.tsx:70-72 | the current page becomes the one chosen |
| `UserAdmin.UserList.HandleDelete` | src/app/components/ListUsers.tsx:74-77 | the users with the id leave the list, the filtered list is the search over what remains, and the page goes back to 1 |
| `UserAdmin.UserList.HandleRoleChange` | src/app/components/ListUsers.tsx:79-95 | on success the profile row gets 'admin' or 'user' and so does that user's entry; a failure changes nothing |
| `UserAdmin.UserList.HandleSearchChange` | src/app/components/ListUsers.tsx:121-123 | a new query reruns the search and resets the page; the same query changes nothing |
| `AccountDeletion.ScrubPostMeaning` | src/app/components/DeleteUser.tsx:68 | a scrubbed post keeps everything but its comments, holds no comment by the user, and keeps every other comment in order |
| `AccountDeletion.ScrubWhere` | src/app/components/DeleteUser.tsx:67-74 | the posts whose id is among those updated are scrubbed and every other post stays |
| `AccountDeletion.ScrubbedPostsMeaning` | src/app/components/DeleteUser.tsx:67-74 | with unique ids, the scrub leaves every post holding a comment by the user without those comments, unless its update fails, and every other post as it was |
| `AccountDeletion.ScrubStep` | src/app/components/DeleteUser.tsx:70-73 | one successful update of the loop scrubs one more post |
| `AccountDeletion.ScrubRowsWithId` | src/app/components/DeleteUser.tsx:70-73 | `update(...).eq('id', id)` with the scrubbed comments patches every row with the id, which marks that id as scrubbed |
| `AccountDeletion.ScrubRow` | src/app/components/DeleteUser.tsx:70-73 | with unique ids, updating a snapshot row's post to its scrubbed comments scrubs one more post |
| `AccountDeletion.UpdatedIdsMembers` | src/app/components/DeleteUser.tsx:67-74 | an id has been updated exactly when one of the rows visited so far has it and its update did not fail |
| `AccountDeletion.ScrubDone` | src/app/components/DeleteUser.tsx:67-74 | after the whole snapshot, the updated ids are exactly the posts holding a comment by the user whose update did not fail |
| `AccountDeletion.ScrubRemovesUser` | src/app/components/DeleteUser.tsx:68 | without failed updates no post keeps a comment by the user, and every other user's comment stays where it was |
| `AccountDeletion.HandleDelete` | src/app/components/DeleteUser.tsx:13-97 | a profile error, an avatar, a posts error or an owned post stops the deletion with nothing changed; otherwise the comments are scrubbed (unless the snapshot read fails), and then the account is deleted unless that call fails |
| `AccountDeletion.OnDeleteComments` | src/app/components/DeleteUser.tsx:51-78 | a failed snapshot read changes nothing; otherwise the posts are scrubbed as intended |
| `AccountDeletion.ScrubOne` | src/app/components/DeleteUser.tsx:67-74 | one turn of the loop: the row's update takes effect unless it fails, and the posts stay scrubbed for exactly the ids updated so far |
| `AccountDeletion.ScrubSnapshot` | src/app/components/DeleteUser.tsx:67-74 | the loop leaves the posts of the snapshot whose update succeeded scrubbed, and the others as they were |
| `AccountDeletion.DeleteFromList` | src/app/components/DeleteUser.tsx:84-89 | the list drops the user only when the account is deleted, and changes nothing otherwise |
| `LikeButton.LikeCountAppend` | src/app/components/LikeButton.tsx:55-57 | inserting a like row of this post by this user adds one to their count, and any other row adds nothing |
| `LikeButton.LikeCountZero` | src/app/components/LikeButton.tsx:27 | the count is zero exactly when no row is a like of this post by this user |
| `LikeButton.LookupVerdictAsWritten` | src/app/components/LikeButton.tsx:45-53 | as written, a lookup without error never leads to the insert |
| `LikeButton.LookupVerdict` | src/app/components/LikeButton.tsx:45-53 | the intended lookup stops on an error and on an existing like, and inserts exactly when the lookup came back empty |
| `LikeButton.LikeLookupFinding` | src/app/components/LikeButton.tsx:50 | the empty lookup answer stops the like as written and leads to the insert as intended |
| `LikeButton.LookupVerdictSound` | src/app/components/LikeButton.tsx:39-53 | against the table it read, the intended lookup inserts exactly when the user has no like on the post, and stops exactly when they have one |
| `LikeButton.Button.constructor` | src/app/components/LikeButton.tsx:13-15 | the first render: not liked, loading, not the owner |
| `LikeButton.Button.FetchLikeStatus` | src/app/components/LikeButton.tsx:17-34 | the viewer owns the post exactly when they wrote it; the post becomes liked when the lookup finds a like by the viewer; loading ends |
| `LikeButton.Button.HandleLike` | src/app/components/LikeButton.tsx:36-90 | a disabled button does nothing; a lookup error or an existing like stops before the insert; after the insert the post is liked, and once its count is read the count plus one is stored; `refreshPosts` runs after the count update whether it failed or not; no user ever gets a second like row |
| `AvatarUpload.AvatarFileNameShape` | src/app/components/AvatarUploadModal.tsx:82-84 | the new name is the timestamp, a '.', and the original name's last '.'-segment, which holds no '.' and ends the original name; a name and timestamp without '/' give a name without '/' |
| `AvatarUpload.AvatarUrlRoundTrip` | src/app/components/AvatarUploadModal.tsx:130 | the name read back from an avatar's public address is the path it was stored under |
| `AvatarUpload.Modal.constructor` | src/app/components/AvatarUploadModal.tsx:16-18 | the initial state: not uploading, no session, no preview |
| `AvatarUpload.Modal.FetchSession` | src/app/components/AvatarUploadModal.tsx:22-41 | without a session the dialog goes to '/login'; otherwise it keeps the session and previews the profile's avatar when there is one |
| `AvatarUpload.ReplaceAvatar` | src/app/components/AvatarUploadModal.tsx:102-138 | the writes after the profile read: an upload failure or a taken name changes nothing, an update failure keeps the new file, and after the update the old file is removed unless there is none or the removal fails |
| `AvatarUpload.Modal.HandleAvatarUpload` | src/app/components/AvatarUploadModal.tsx:73-150 | no file, or a failed profile read, changes nothing; the new file is stored under its new name, then the profile points at its public address, then the old file is removed when the profile had an address; a failed update leaves the new file stored, and a failed removal stops before the callback and the preview; uploading always ends |
| `AvatarUpload.Modal.HandleAvatarDelete` | src/app/components/AvatarUploadModal.tsx:152-202 | without a session, a failed profile read or an empty address nothing changes; otherwise the file named by the address is removed, then the address is set to null; a storage failure stops before the profile changes |
| `Header.RenderHeader` | src/app/components/ClientHeader.tsx:11-22 | '/post' selects the upload header, '/' the top-page header, '/login' no header, and every other pathname the default header |
| `Header.EveryHeaderShown` | src/app/components/ClientHeader.tsx:11-22 | every header is shown on some page |

## Findings

| source | as written | input that shows it | evidently intended | confidence | as-written member | corrected member |
|---|---|---|---|---|---|---|
| src/app/components/LikeButton.tsx:50-53 | `if (existingLikes)` is true for any answer without error, since an empty array is truthy, so the insert is never reached | a user who has not liked the post: the lookup answers `[]` | stop only on a non-empty answer (`existingLikes.length > 0`), and insert otherwise | high, not executed | `LikeButton.LookupVerdictAsWritten` | `LikeButton.LookupVerdict` |
| src/app/components/PostList.tsx:165 | `comment[postId]?.trim() === ''` is false when nothing was typed for the post, so the guard lets an undefined draft through | submitting on a post whose comment box was never touched | stop unless a draft exists and is not blank | high, not executed | `PostFeed.CommentGuardFinding` | `PostFeed.Feed.HandleCommentSubmit` |
| src/app/components/ListUsers.tsx:92 | `{ ...prevRemarks[userId], role }` for a user without a profile row leaves an entry with only the role; then `userProfile.nickname.toLowerCase()` at line 108 throws | grant 'admin' to an account without a profile row, then search for a word found in none of its fields | give the entry the defaults of line 101 | medium, not executed | `UserAdmin.RoleChangeFinding` | `UserAdmin.RoleChange` |

The corrected members are the ones the rest of the model uses: `Button.HandleLike` decides with `LookupVerdict`, `Feed.HandleCommentSubmit` applies `CommentAccepted`, and `UserList.HandleRoleChange` applies `RoleChange`.

## Left out

- The like button's effect reruns on prop changes. The button's props are constants, and the effect runs once as `FetchLikeStatus`.
- `Button.HandleLike` models the corrected lookup (see Findings), so the as-written path only appears as `LookupVerdictAsWritten`.
- Rendering, alerts, console logging, `scrollIntoView`/`setTimeout`, `router.push` (only its decision is modelled) and `window.location.reload` are I/O.
- Clocks and locale formatting are input strings. This covers `Date.now`, `toISOString`, `toLocaleDateString('ja-JP')`, `toLocaleTimeString` and `encodeURIComponent` of the stamp.
- `isLoading` spinners are only modelled where a handler sets them (`Form.isLoading`, `Modal.uploading`, `Button.loading`). The feed's and the user list's spinner flags only drive rendering.
- Async interleaving is left out. The handlers are atomic here, so races between a re-fetch and local updates, and the lost update in the read-then-write `iine` increment, are not modelled.
- `Feed.FetchPosts`: the post's own `nickname` and `avatar_url` from the `profile` join are left out. They only feed rendering and no handler writes them back.
- `Feed.FetchPosts`: each per-comment profile read is modelled as answering from the profile table. A failing read, whose error the source ignores, would give 'Unknown' and `null` as a missing profile does; this is not modelled, and neither is the order in which the `Promise.all` reads finish.
- `Text`: strings are sequences of characters. UTF-16 code units, and so surrogate pairs, are not distinguished from characters.
- The database orders rows by `created_date`/`created_time` and profiles by `created_at` descending. This is not modelled: rows come back in the order the store keeps them.
- `Text.ToLower`: only the ASCII letters are lower-cased. Unicode case mapping is not modelled.
- The feed's re-fetch after a comment (`await fetchPosts(...)`) is the separate `FetchPosts` call and is not chained inside `HandleCommentSubmit`. `refreshPosts` is likewise a flag returned by `Button.HandleLike`.
- `handleCommentSubmit` re-reads the session with `auth.getSession()`. This is modelled as the feed's stored session.
- `listFiles` and `fetchProfileData` in AvatarUploadModal.tsx are left out. The first only logs, and the second's result is overwritten by the reload that follows.
- `handleAvatarUpload`'s `if (!session)` check after the upload cannot fire, because a missing session already makes the profile read fail (`eq('id', undefined)` matches no row). The model stops at the read.
- `handleFileTypeChange` ignores a remove error: its message is cleared by the resets just after. The model changes the store only when the remove succeeds and sets no error.
- `DeleteUser` ignores a failed per-post update and a failed snapshot read, exactly as the source does, and still deletes the account. A user without a profile row cannot be deleted, because `.single()` refuses zero rows.
- `Store.Exists`: the listing `list('', { search })` is modelled as an exact lookup of the path in the bucket. Storage-side prefix search is not modelled.
- Auth, OAuth and sign-out, the session pages, the header components' links, the category page, `useCategories` (its answer is a parameter) and the storage wrappers under `src/app/utils` are not part of this model.
