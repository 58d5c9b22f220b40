/** The post form of FileUploadWithPost.tsx: a video file (checked for format and size, then
    uploaded to the `post_files` bucket) or a YouTube link (checked against the link pattern and
    turned into its embed form) becomes the preview, and the post row is inserted once the ordered
    submit checks pass. */
module UploadForm {
  import opened Base
  import opened Text
  import opened YouTube
  import opened Backend
  import opened PostFeed

  const SupportedVideoFormats: seq<string> := ["mp4", "mov"]
  const MaxFileSizeMb := 50
  const MaxFileSizeBytes := MaxFileSizeMb * 1024 * 1024

  const UnsupportedFormatMessage := "サポートされていないファイル形式です。対応形式: mp4, mov"
  const TooLargeMessage := "ファイルサイズは最大 50MB までです。"
  const UploadFailedMessage := "ファイルのアップロードに失敗しました"
  const UploadedMessage := "動画のアップロードに成功しました"
  const NotYouTubeMessage := "URLがYouTubeの形式ではありません"
  const YouTubeSetMessage := "YouTube動画のURLが設定されました"
  const NotReadyMessage := "ユーザーがログインしていないか、ファイルがアップロードされていません。"
  const TitleRequiredMessage := "タイトルは必須です。"
  const CategoryRequiredMessage := "カテゴリーを選択してください。"
  const PostedMessage := "投稿が成功しました！"
  const PostFailedPrefix := "投稿に失敗しました: "

  /** The selected `File`: its name and its size in bytes. */
  datatype FileInfo = FileInfo(name: string, size: nat)

  /** The value of the file-type select. */
  datatype FileType = NoType | Video | YouTubeLink

  /** `name.split('.').pop()?.toLowerCase()` */
  function Extension(name: string): string
  {
    ToLower(LastSegment(name, '.'))
  }

  /** What `handleFileChange` decides about a selected file: the format is checked first. */
  datatype FileCheck = Accepted | UnsupportedFormat | TooLarge

  function CheckFile(f: FileInfo): (r: FileCheck)
    ensures r == UnsupportedFormat <==> Extension(f.name) !in SupportedVideoFormats
    ensures r == TooLarge <==> Extension(f.name) in SupportedVideoFormats && f.size > MaxFileSizeBytes
    ensures r == Accepted <==> Extension(f.name) in SupportedVideoFormats && f.size <= MaxFileSizeBytes
  {
    if Extension(f.name) == "" || Extension(f.name) !in SupportedVideoFormats then UnsupportedFormat
    else if f.size > MaxFileSizeBytes then TooLarge
    else Accepted
  }

  /** A format-accepted name ends, ignoring ASCII case, in `mp4` or `mov`, and either is nothing
      but that or has a '.' just before it. */
  lemma AcceptedNameShape(name: string)
    requires Extension(name) in SupportedVideoFormats
    ensures |name| >= 3 && ToLower(name[|name| - 3..]) in SupportedVideoFormats
    ensures |name| == 3 || name[|name| - 4] == '.'
  {
    LastSegmentIsSuffix(name, '.');
    var seg := LastSegment(name, '.');
    assert |seg| == 3;
  }

  /** Conversely a name `stem.ext` with a supported extension in any ASCII case is accepted. */
  lemma AcceptedName(stem: string, ext: string)
    requires '.' !in ext && ToLower(ext) in SupportedVideoFormats
    ensures Extension(stem + "." + ext) in SupportedVideoFormats
  {
    assert stem + "." + ext == stem + ['.'] + ext;
    LastSegmentAfter(stem, ext, '.');
  }

  /** The size limit is 52428800 bytes and a file of exactly that size is still accepted. */
  lemma SizeLimit(f: FileInfo)
    requires Extension(f.name) in SupportedVideoFormats
    ensures MaxFileSizeBytes == 52428800
    ensures f.size == MaxFileSizeBytes ==> CheckFile(f) == Accepted
    ensures f.size == MaxFileSizeBytes + 1 ==> CheckFile(f) == TooLarge
  {
  }

  /** `filePreview.split('/').pop()?.split('?')[0]`: the stored name `handleFileTypeChange` derives
      from the preview of an uploaded video. */
  function PreviewFileName(preview: string): (r: string)
    ensures '/' !in r && '?' !in r
  {
    LastSegmentIsSuffix(preview, '/');
    var seg := LastSegment(preview, '/');
    var r := Split(seg, '?')[0];
    SplitPieces(seg, '?');
    assert '/' !in r by {
      forall i | 0 <= i < |r|
        ensures r[i] != '/'
      {
        SplitFirstFrom(seg, '?', i);
      }
    }
    r
  }

  /** A character of the first '?'-segment comes from the string split. */
  lemma {:induction false} SplitFirstFrom(s: string, c: char, i: nat)
    requires i < |Split(s, c)[0]|
    ensures Split(s, c)[0][i] in s
    decreases |s|
  {
    if s != [] && s[0] != c && i > 0 {
      SplitFirstFrom(s[1..], c, i - 1);
    }
  }

  /** The name a video is stored under: `${Date.now()}_${file.name}`. */
  function UniqueFileName(now: string, name: string): string
  {
    now + "_" + name
  }

  /** The preview of an uploaded video names, after its last '/', the stored file and then the query,
      so changing the file type removes exactly the uploaded file. */
  lemma PreviewNamesUpload(fileName: string, stamp: string)
    requires '/' !in fileName && '?' !in fileName && '/' !in stamp
    ensures PreviewFileName(PostFileUrl(fileName, stamp)) == fileName
  {
    var query := "t=" + stamp;
    var tail := fileName + ['?'] + query;
    assert '/' !in tail by {
      forall i | 0 <= i < |tail|
        ensures tail[i] != '/'
      {
        if i >= |fileName| + 1 {
          assert tail[i] == query[i - |fileName| - 1];
        }
      }
    }
    UploadAddressSplit(fileName, stamp);
    LastSegmentAfter(BucketUrl(PostFiles) + "/public", tail, '/');
    FirstSegmentBefore(fileName, query, '?');
  }

  lemma UploadAddressSplit(fileName: string, stamp: string)
    ensures PostFileUrl(fileName, stamp) == BucketUrl(PostFiles) + "/public" + ['/'] + (fileName + ['?'] + ("t=" + stamp))
  {
  }

  /** The watch address `https://www.youtube.com/watch?v=<id>` has its first `watch?v=` at 24. */
  lemma WatchPatternAt(id: string)
    ensures IndexOf(WatchPrefix + id, "watch?v=") == Some(24)
  {
    var url := WatchPrefix + id;
    var w := "watch?v=";
    assert url == "https://" + "www" + ".youtube.com/" + (w + id);
    forall j | 0 <= j < 24
      ensures !StartsWith(url[j..], w)
    {
      if 8 <= j < 11 {
        NotStartsWithAt(url, w, j, 1);
      } else if j < 8 {
        assert url[j] == "https://"[j];
        NotStartsWithAt(url, w, j, 0);
      } else {
        assert url[j] == ".youtube.com/"[j - 11];
        NotStartsWithAt(url, w, j, 0);
      }
    }
    assert url[24..][..|w|] == w;
    IndexOfAt(url, w, 24);
  }

  /** `youtubeURL.replace("watch?v=", "embed/")` turns a watch address into the embed address of the
      same video, and the embed address keeps the id the link carried. */
  lemma WatchRewrite(id: string)
    requires IsVideoId(id)
    ensures ReplaceFirst(WatchPrefix + id, "watch?v=", "embed/") == EmbedPrefix + id
    ensures MatchId(WatchPrefix + id) == Some(id) && MatchId(EmbedPrefix + id) == Some(id)
  {
    WatchPatternAt(id);
    var url := WatchPrefix + id;
    assert url[..24] == Www + Host;
    assert url[32..] == id;
    MatchWatchForm(id);
    MatchEmbedForm(id);
  }

  /** An embed address holds no '?', so the rewrite leaves it as it is. */
  lemma EmbedRewrite(id: string)
    requires IsVideoId(id)
    ensures ReplaceFirst(EmbedPrefix + id, "watch?v=", "embed/") == EmbedPrefix + id
  {
    var url := EmbedPrefix + id;
    IdChars(id);
    assert '?' !in url by {
      forall i | 0 <= i < |url|
        ensures url[i] != '?'
      {
        if i >= 30 {
          assert url[i] == id[i - 30];
        } else {
          assert url[i] == EmbedPrefix[i];
        }
      }
    }
    IndexOfMissingChar(url, "watch?v=", 5);
  }

  /** The ordered checks of `handlePostSubmit`; the first one that fails decides. */
  datatype SubmitCheck = NotReady | NotUploaded | NoTitle | NoCategory | Ready

  function CheckPostSubmit(session: Option<string>, preview: Option<string>, isUploaded: bool,
                           title: string, category: string): (r: SubmitCheck)
    ensures r == NotReady <==> session.None? || !Truthy(preview)
    ensures r == NotUploaded <==> session.Some? && Truthy(preview) && !isUploaded
    ensures r == NoTitle <==> session.Some? && Truthy(preview) && isUploaded && title == ""
    ensures r == NoCategory <==> session.Some? && Truthy(preview) && isUploaded && title != "" && category == ""
    ensures r == Ready <==> session.Some? && Truthy(preview) && isUploaded && title != "" && category != ""
  {
    if session.None? || !Truthy(preview) then NotReady
    else if !isUploaded then NotUploaded
    else if title == "" then NoTitle
    else if category == "" then NoCategory
    else Ready
  }

  /** `jstDate.split('/').join('-')`: the date with every '/' turned into '-'. */
  function CreatedDate(jstDate: string): (d: string)
    ensures |d| == |jstDate| && '/' !in d
    ensures forall i :: 0 <= i < |jstDate| ==> d[i] == if jstDate[i] == '/' then '-' else jstDate[i]
  {
    ReplaceAllChars(jstDate, '/', '-');
    ReplaceAll(jstDate, '/', '-')
  }

  /** The state of the FileUploadWithPost component. */
  class Form {
    var file: Option<FileInfo>
    var filePreview: Option<string>
    var isLoading: bool
    var uploadError: string
    var uploadSuccess: string
    var fileType: FileType
    var youtubeUrl: string
    var title: string
    var comment: string
    var postError: Option<string>
    var postSuccess: Option<string>
    var category: string
    var selectedCategoryName: Option<string>
    var isUploaded: bool
    /** The signed-in user's id (the `session` prop). */
    var session: Option<string>
    /** What `useCategories` returned. */
    var categories: seq<Category>

    constructor (session: Option<string>, categories: seq<Category>)
      ensures file == None && filePreview == None && !isLoading && uploadError == "" && uploadSuccess == ""
      ensures fileType == NoType && youtubeUrl == "" && title == "" && comment == ""
      ensures postError == None && postSuccess == None && category == "" && selectedCategoryName == None
      ensures !isUploaded && this.session == session && this.categories == categories
    {
      file := None;
      filePreview := None;
      isLoading := false;
      uploadError := "";
      uploadSuccess := "";
      fileType := NoType;
      youtubeUrl := "";
      title := "";
      comment := "";
      postError := None;
      postSuccess := None;
      category := "";
      selectedCategoryName := None;
      isUploaded := false;
      this.session := session;
      this.categories := categories;
    }

    /** `handleCategoryChange`: the chosen id and the name of the category with that id, if any. */
    method HandleCategoryChange(value: string)
      modifies this`category, this`selectedCategoryName
      ensures category == value
      ensures selectedCategoryName.Some? <==> exists c :: c in categories && c.id == value
      ensures selectedCategoryName.Some? ==> exists c :: c in categories && c.id == value && c.name == selectedCategoryName.value
    {
      category := value;
      var found := FindCategory(categories, value);
      selectedCategoryName := if found.Some? then Some(found.value.name) else None;
    }

    /** `clearMessages` */
    method ClearMessages()
      modifies this`uploadError, this`uploadSuccess, this`postError, this`postSuccess
      ensures uploadError == "" && uploadSuccess == "" && postError == None && postSuccess == None
    {
      uploadError := "";
      uploadSuccess := "";
      postError := None;
      postSuccess := None;
    }

    /** `handleFileChange`: a rejected file sets the matching error and clears the file and the
        preview; an accepted one becomes the file, previewed by its data address `dataUrl`. */
    method HandleFileChange(selected: Option<FileInfo>, dataUrl: string)
      modifies this`uploadError, this`file, this`filePreview
      ensures selected.None? ==> uploadError == old(uploadError) && file == old(file) && filePreview == old(filePreview)
      ensures selected.Some? && CheckFile(selected.value) == Accepted ==>
        uploadError == "" && file == selected && filePreview == Some(dataUrl)
      ensures selected.Some? && CheckFile(selected.value) == UnsupportedFormat ==>
        uploadError == UnsupportedFormatMessage && file == None && filePreview == None
      ensures selected.Some? && CheckFile(selected.value) == TooLarge ==>
        uploadError == TooLargeMessage && file == None && filePreview == None
    {
      if selected.None? {
        return;
      }
      var f := selected.value;
      uploadError := "";
      var check := CheckFile(f);
      if check == UnsupportedFormat {
        uploadError := UnsupportedFormatMessage;
        file := None;
        filePreview := None;
        return;
      }
      if check == TooLarge {
        uploadError := TooLargeMessage;
        file := None;
        filePreview := None;
        return;
      }
      file := Some(f);
      filePreview := Some(dataUrl);
    }

    /** `handleYoutubeURLChange` */
    method HandleYoutubeUrlChange(value: string)
      modifies this`youtubeUrl
      ensures youtubeUrl == value
    {
      youtubeUrl := value;
    }

    /** `handleFileTypeChange`: a previewed video's stored file is removed (whatever the storage
        answers), then the type is set and the preview, link, file, title, comment, messages and
        loading flag are reset; `isUploaded` and the category stay. */
    method HandleFileTypeChange(store: Store, value: FileType, removeFails: bool)
      modifies this`fileType, this`filePreview, this`youtubeUrl, this`file, this`title, this`comment
      modifies this`uploadError, this`uploadSuccess, this`postError, this`postSuccess, this`isLoading
      modifies store`files
      ensures fileType == value && filePreview == None && youtubeUrl == "" && file == None
      ensures title == "" && comment == "" && !isLoading
      ensures uploadError == "" && uploadSuccess == "" && postError == None && postSuccess == None
      ensures (store.files == if Truthy(old(filePreview)) && old(fileType) == Video
        && PreviewFileName(old(filePreview).value) != "" && !removeFails
        then old(store.files) - {StoredFile(PostFiles, "public/" + PreviewFileName(old(filePreview).value))}
        else old(store.files))
    {
      if Truthy(filePreview) && fileType == Video {
        var fileName := PreviewFileName(filePreview.value);
        if fileName != "" {
          var _ := store.Remove(PostFiles, "public/" + fileName, removeFails);
        }
      }
      fileType := value;
      filePreview := None;
      youtubeUrl := "";
      file := None;
      ClearMessages();
      title := "";
      comment := "";
      isLoading := false;
    }

    /** `handleUploadSubmit`. A selected video is stored as `public/<now>_<name>` and its public
        address, stamped with `stamp` (the encoded ISO time), becomes the preview; a link of the
        YouTube form becomes the preview in its rewritten form; either success marks the form
        uploaded; anything else only clears the messages. Loading ends false. */
    method HandleUploadSubmit(store: Store, now: string, stamp: string, uploadFails: bool)
      modifies this`isLoading, this`uploadError, this`uploadSuccess, this`postError, this`postSuccess
      modifies this`isUploaded, this`filePreview, store`files
      ensures !isLoading && postError == None && postSuccess == None
      ensures (old(file).Some? && old(fileType) == Video ==>
        var path := "public/" + UniqueFileName(now, old(file).value.name);
        if StoredFile(PostFiles, path) !in old(store.files) && !uploadFails then
          store.files == old(store.files) + {StoredFile(PostFiles, path)}
          && isUploaded && filePreview == Some(PostFileUrl(UniqueFileName(now, old(file).value.name), stamp))
          && uploadSuccess == UploadedMessage && uploadError == ""
        else
          store.files == old(store.files) && isUploaded == old(isUploaded) && filePreview == old(filePreview)
          && uploadError == UploadFailedMessage && uploadSuccess == "")
      ensures (!(old(file).Some? && old(fileType) == Video) && old(fileType) == YouTubeLink && old(youtubeUrl) != "" ==>
        store.files == old(store.files) &&
        if IsYouTubeUrl(old(youtubeUrl)) then
          isUploaded && filePreview == Some(ReplaceFirst(old(youtubeUrl), "watch?v=", "embed/"))
          && uploadSuccess == YouTubeSetMessage && uploadError == ""
        else
          isUploaded == old(isUploaded) && filePreview == old(filePreview)
          && uploadError == NotYouTubeMessage && uploadSuccess == "")
      ensures (!(old(file).Some? && old(fileType) == Video) && !(old(fileType) == YouTubeLink && old(youtubeUrl) != "") ==>
        store.files == old(store.files) && isUploaded == old(isUploaded) && filePreview == old(filePreview)
        && uploadError == "" && uploadSuccess == "")
    {
      isLoading := true;
      ClearMessages();
      if file.Some? && fileType == Video {
        var name := UniqueFileName(now, file.value.name);
        var ok := store.Upload(PostFiles, "public/" + name, uploadFails);
        if !ok {
          uploadError := UploadFailedMessage;
        } else {
          uploadSuccess := UploadedMessage;
          isUploaded := true;
          filePreview := Some(PostFileUrl(name, stamp));
        }
      } else if fileType == YouTubeLink && youtubeUrl != "" {
        if !IsYouTubeUrl(youtubeUrl) {
          uploadError := NotYouTubeMessage;
          isLoading := false;
          return;
        }
        uploadSuccess := YouTubeSetMessage;
        isUploaded := true;
        filePreview := Some(ReplaceFirst(youtubeUrl, "watch?v=", "embed/"));
      }
      isLoading := false;
    }

    /** `handlePostSubmit`: after the ordered checks, the row `newId` (the id the database assigns)
        is inserted with no comments, the preview as its file and the date with '-' separators;
        `errorMessage` is what the database says when the insert fails. */
    method HandlePostSubmit(store: Store, newId: string, jstDate: string, jstTime: string,
                            insertFails: bool, errorMessage: string) returns (check: SubmitCheck)
      modifies this`uploadError, this`uploadSuccess, this`postError, this`postSuccess, store`posts
      ensures check == CheckPostSubmit(session, filePreview, isUploaded, title, category)
      ensures uploadError == "" && uploadSuccess == ""
      ensures check == NotReady ==> postError == Some(NotReadyMessage) && postSuccess == None
      ensures check == NotUploaded ==> postError == None && postSuccess == None
      ensures check == NoTitle ==> postError == Some(TitleRequiredMessage) && postSuccess == None
      ensures check == NoCategory ==> postError == Some(CategoryRequiredMessage) && postSuccess == None
      ensures check != Ready ==> store.posts == old(store.posts)
      ensures (check == Ready ==>
        var row := Post(newId, title, comment, [], None, false, CreatedDate(jstDate), jstTime,
                        session.value, filePreview, category, false);
        if !insertFails && newId !in Ids(old(store.posts)) then
          store.posts == old(store.posts) + [row] && postSuccess == Some(PostedMessage) && postError == None
        else
          store.posts == old(store.posts) && postSuccess == None && postError == Some(PostFailedPrefix + errorMessage))
    {
      ClearMessages();
      check := CheckPostSubmit(session, filePreview, isUploaded, title, category);
      if check == NotReady {
        postError := Some(NotReadyMessage);
        return;
      }
      if check == NotUploaded {
        return;
      }
      if check == NoTitle {
        postError := Some(TitleRequiredMessage);
        return;
      }
      if check == NoCategory {
        postError := Some(CategoryRequiredMessage);
        return;
      }
      var row := Post(newId, title, comment, [], None, false, CreatedDate(jstDate), jstTime,
                      session.value, filePreview, category, false);
      var ok := store.InsertPost(row, insertFails);
      if ok {
        postSuccess := Some(PostedMessage);
      } else {
        postError := Some(PostFailedPrefix + errorMessage);
      }
    }
  }
}
