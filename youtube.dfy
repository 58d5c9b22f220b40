/** The YouTube link recogniser that PostList.tsx and FileUploadWithPost.tsx share: one regular
    expression, used with `test` (is it a link?) and `match(...)[1]` (the 11-character video id).

    The expression is `P? W? (youtube\.com\/(A1 | A2 | A3) | youtu\.be\/) ([a-zA-Z0-9_-]{11})`
    with `P = https?:\/\/`, `W = www\.`, `A1 = [^\/\n\s]+\/\S+\/`, `A2 = (?:v|e(?:mbed)?)\/` and
    `A3 = \S*?[?&]v=`. The optional prefixes P and W never change the captured id: every match
    contains a "core" match starting where `youtube.com/` or `youtu.be/` begins, the captured id is
    the one of the leftmost core position, and a prefix cannot run across that position because
    the letters of `https://www.` contain no 'y'. So the model scans for the leftmost position at
    which a core match succeeds, and at a fixed position tries the alternatives in the order, and
    with the greedy or lazy backtracking, that JavaScript's engine uses. */
module YouTube {
  import opened Base
  import opened Text

  const IdLength := 11

  /** `[a-zA-Z0-9_-]` */
  predicate IsIdChar(c: char) {
    ('a' <= c <= 'z') || ('A' <= c <= 'Z') || ('0' <= c <= '9') || c == '_' || c == '-'
  }

  predicate IsVideoId(id: string) {
    |id| == IdLength && forall i :: 0 <= i < |id| ==> IsIdChar(id[i])
  }

  /** The literal `lit` occurs in `url` at position `p`. */
  predicate HasAt(url: string, p: nat, lit: string) {
    p <= |url| && StartsWith(url[p..], lit)
  }

  /** The capture group `([a-zA-Z0-9_-]{11})` at position `p`. */
  function IdAt(url: string, p: nat): (r: Option<string>)
    ensures r.Some? ==> p + IdLength <= |url| && r.value == url[p..p + IdLength] && IsVideoId(r.value)
    ensures r.None? ==> !(p + IdLength <= |url| && IsVideoId(url[p..p + IdLength]))
  {
    if p + IdLength <= |url| && IsVideoId(url[p..p + IdLength]) then Some(url[p..p + IdLength]) else None
  }

  /** The number of characters `[^\/\n\s]+` consumes greedily from `p`. */
  function SegmentRun(url: string, p: nat): (n: nat)
    requires p <= |url|
    ensures p + n <= |url|
    ensures forall i :: p <= i < p + n ==> url[i] != '/' && !IsSpace(url[i])
    ensures p + n == |url| || url[p + n] == '/' || IsSpace(url[p + n])
    decreases |url| - p
  {
    if p == |url| || url[p] == '/' || IsSpace(url[p]) then 0 else 1 + SegmentRun(url, p + 1)
  }

  /** The number of characters `\S+` consumes greedily from `p`. */
  function NonSpaceRun(url: string, p: nat): (n: nat)
    requires p <= |url|
    ensures p + n <= |url|
    ensures forall i :: p <= i < p + n ==> !IsSpace(url[i])
    ensures p + n == |url| || IsSpace(url[p + n])
    decreases |url| - p
  {
    if p == |url| || IsSpace(url[p]) then 0 else 1 + NonSpaceRun(url, p + 1)
  }

  /** `\S+\/(id)` with `\S+` starting at `q` and backtracking from `k` characters down to one. */
  function SlashIdBack(url: string, q: nat, k: nat): (r: Option<string>)
    ensures r.Some? ==> IsVideoId(r.value)
    decreases k
  {
    if k == 0 then None
    else if q + k < |url| && url[q + k] == '/' && IdAt(url, q + k + 1).Some? then IdAt(url, q + k + 1)
    else SlashIdBack(url, q, k - 1)
  }

  /** Alternative A1, `[^\/\n\s]+\/\S+\/`, then the id. The first run cannot backtrack usefully (a
      shorter run is never followed by '/'), so only `\S+` backtracks. */
  function SegmentsAlt(url: string, j: nat): (r: Option<string>)
    requires j <= |url|
    ensures r.Some? ==> IsVideoId(r.value)
  {
    var n := SegmentRun(url, j);
    if n == 0 || j + n == |url| || url[j + n] != '/' then None
    else SlashIdBack(url, j + n + 1, NonSpaceRun(url, j + n + 1))
  }

  /** Alternative A2, `(?:v|e(?:mbed)?)\/`, then the id. */
  function PathAlt(url: string, j: nat): (r: Option<string>)
    ensures r.Some? ==> IsVideoId(r.value)
  {
    if HasAt(url, j, "v/") then IdAt(url, j + 2)
    else if HasAt(url, j, "embed/") then IdAt(url, j + 6)
    else if HasAt(url, j, "e/") then IdAt(url, j + 2)
    else None
  }

  /** Alternative A3, `\S*?[?&]v=`, then the id; the lazy `\S*?` has consumed `k` characters. */
  function QueryAlt(url: string, j: nat, k: nat): (r: Option<string>)
    ensures r.Some? ==> IsVideoId(r.value)
    decreases |url| - (j + k)
  {
    if j + k >= |url| then None
    else if (url[j + k] == '?' || url[j + k] == '&') && HasAt(url, j + k + 1, "v=") && IdAt(url, j + k + 3).Some?
    then IdAt(url, j + k + 3)
    else if IsSpace(url[j + k]) then None
    else QueryAlt(url, j, k + 1)
  }

  /** The core of the expression at position `c`. */
  function CoreAt(url: string, c: nat): (r: Option<string>)
    ensures r.Some? ==> IsVideoId(r.value)
    ensures c >= |url| || url[c] != 'y' ==> r.None?
  {
    if HasAt(url, c, "youtube.com/") then
      var j := c + 12;
      match SegmentsAlt(url, j)
      case Some(id) => Some(id)
      case None =>
        match PathAlt(url, j)
        case Some(id) => Some(id)
        case None => QueryAlt(url, j, 0)
    else if HasAt(url, c, "youtu.be/") then IdAt(url, c + 9)
    else None
  }

  /** The id captured by the leftmost match at or after position `c`. A core match begins with the
      'y' of its host, so the scan passes over other characters without trying one there. */
  function FirstMatch(url: string, c: nat): (r: Option<string>)
    ensures r.Some? ==> IsVideoId(r.value)
    decreases |url| - c
  {
    if c >= |url| then None
    else if url[c] != 'y' then FirstMatch(url, c + 1)
    else match CoreAt(url, c)
      case Some(id) => Some(id)
      case None => FirstMatch(url, c + 1)
  }

  /** The scan is the regular expression engine's: it tries the core at every position in turn and
      stops at the first that matches. */
  lemma FirstMatchTriesEveryPosition(url: string, c: nat)
    ensures FirstMatch(url, c) == if c >= |url| then None else match CoreAt(url, c)
      case Some(id) => Some(id)
      case None => FirstMatch(url, c + 1)
  {
  }

  /** `url.match(re)?.[1]` */
  function MatchId(url: string): (r: Option<string>)
    ensures r.Some? ==> IsVideoId(r.value)
  {
    FirstMatch(url, 0)
  }

  /** `isYouTubeUrl` (PostList.tsx) and the `test` in `handleUploadSubmit` (FileUploadWithPost.tsx). */
  predicate IsYouTubeUrl(url: string) {
    MatchId(url).Some?
  }

  const Www := "https://www."
  const Host := "youtube.com/"
  const EmbedPrefix := Www + Host + "embed/"
  const WatchPrefix := Www + Host + "watch?v="
  const Https := "https://"
  const ShortHost := "youtu.be/"
  const ShortPrefix := Https + ShortHost

  /** `getYouTubeEmbedUrl` (PostList.tsx): the canonical embed address of the recognised video. */
  function GetYouTubeEmbedUrl(url: string): (r: Option<string>)
    ensures r.Some? <==> IsYouTubeUrl(url)
    ensures r.Some? ==> r.value == EmbedPrefix + MatchId(url).value && IsVideoId(MatchId(url).value)
  {
    match MatchId(url)
    case Some(id) => Some(EmbedPrefix + id)
    case None => None
  }

  /** `extractEmbedId` (FileUploadWithPost.tsx): the recognised id, or '' when there is none. */
  function ExtractEmbedId(url: string): (r: string)
    ensures IsYouTubeUrl(url) ==> IsVideoId(r) && r == MatchId(url).value
    ensures !IsYouTubeUrl(url) ==> r == ""
  {
    match MatchId(url)
    case Some(id) => id
    case None => ""
  }

  /** The id taken back from an embed address is the id it was built from. */
  lemma ExtractEmbedIdOfEmbed(id: string)
    requires IsVideoId(id)
    ensures ExtractEmbedId(EmbedPrefix + id) == id
  {
    MatchEmbedForm(id);
  }

  /** The embed address built for a YouTube link names the same video as the link. */
  lemma EmbedUrlKeepsId(url: string)
    requires IsYouTubeUrl(url)
    ensures GetYouTubeEmbedUrl(url).Some? && ExtractEmbedId(GetYouTubeEmbedUrl(url).value) == ExtractEmbedId(url)
  {
    MatchEmbedForm(MatchId(url).value);
  }

  /** A video id holds neither a separator nor white space. */
  lemma IdChars(id: string)
    requires IsVideoId(id)
    ensures '/' !in id && '?' !in id && '&' !in id
    ensures NoSpace(id)
  {
    assert forall i :: 0 <= i < |id| ==> id[i] != '/' && id[i] != '?' && id[i] != '&' && !IsSpace(id[i]);
  }

  /** Positions holding no 'y' cannot start a match, so the scan passes over them. */
  lemma {:induction false} SkipNoY(url: string, c: nat, n: nat)
    requires c + n <= |url|
    requires forall i :: c <= i < c + n ==> url[i] != 'y'
    ensures FirstMatch(url, c) == FirstMatch(url, c + n)
    decreases n
  {
    if n > 0 {
      SkipNoY(url, c + 1, n - 1);
    }
  }

  /** Both host literals end in a slash, so no match starts where no slash follows. */
  lemma {:induction false} NoSlashNoMatch(url: string, c: nat)
    requires forall i :: c <= i < |url| ==> url[i] != '/'
    ensures FirstMatch(url, c).None?
    decreases |url| - c
  {
    if c < |url| {
      if c + 12 <= |url| {
        NotAt(url, c, "youtube.com/", 11);
      }
      if c + 9 <= |url| {
        NotAt(url, c, "youtu.be/", 8);
      }
      NoSlashNoMatch(url, c + 1);
    }
  }

  /** `\S+\/` finds no slash to stop at. */
  lemma {:induction false} SlashIdBackNone(url: string, q: nat, k: nat)
    requires forall i :: q < i <= q + k && i < |url| ==> url[i] != '/'
    ensures SlashIdBack(url, q, k).None?
    decreases k
  {
    if k > 0 {
      SlashIdBackNone(url, q, k - 1);
    }
  }

  lemma LiteralAt(a: string, lit: string, b: string)
    ensures HasAt(a + lit + b, |a|, lit)
  {
    assert (a + lit + b)[|a|..] == lit + b;
    assert (lit + b)[..|lit|] == lit;
  }

  /** `HasAt` fails where one character differs. */
  lemma NotAt(url: string, p: nat, lit: string, i: nat)
    requires i < |lit| && p + i < |url| && url[p + i] != lit[i]
    ensures !HasAt(url, p, lit)
  {
    if p + |lit| <= |url| {
      assert url[p..][..|lit|][i] == url[p + i];
    }
  }

  /** No position of `https://www.` holds a 'y'. */
  lemma SkipWww(rest: string)
    ensures FirstMatch(Www + rest, 0) == FirstMatch(Www + rest, 12)
  {
    var url := Www + rest;
    assert forall i :: 0 <= i < 12 ==> url[i] == Www[i];
    SkipNoY(url, 0, 12);
  }

  lemma EmbedSegments(id: string)
    requires IsVideoId(id)
    ensures SegmentsAlt(EmbedPrefix + id, 24).None?
  {
    var url := EmbedPrefix + id;
    IdChars(id);
    assert url == Www + Host + "embed/" + id;
    assert url[24..29] == "embed" && url[29] == '/';
    assert SegmentRun(url, 29) == 0;
    assert SegmentRun(url, 24) == 5;
    assert forall i :: 30 <= i < |url| ==> url[i] == id[i - 30];
    SlashIdBackNone(url, 30, NonSpaceRun(url, 30));
  }

  lemma EmbedCore(id: string)
    requires IsVideoId(id)
    ensures CoreAt(EmbedPrefix + id, 12) == Some(id)
  {
    var url := EmbedPrefix + id;
    assert url == Www + Host + ("embed/" + id);
    LiteralAt(Www, Host, "embed/" + id);
    EmbedSegments(id);
    assert url == Www + Host + "embed/" + id;
    NotAt(url, 24, "v/", 0);
    LiteralAt(Www + Host, "embed/", id);
    assert url[30..30 + IdLength] == id;
  }

  /** The embed form `https://www.youtube.com/embed/<id>` captures its own id (alternative A2). */
  lemma MatchEmbedForm(id: string)
    requires IsVideoId(id)
    ensures MatchId(EmbedPrefix + id) == Some(id)
  {
    assert EmbedPrefix + id == Www + (Host + "embed/" + id);
    SkipWww(Host + "embed/" + id);
    EmbedCore(id);
  }

  lemma WatchQuery(id: string)
    requires IsVideoId(id)
    ensures QueryAlt(WatchPrefix + id, 24, 0) == Some(id)
  {
    var url := WatchPrefix + id;
    assert url == Www + Host + "watch" + "?v=" + id;
    assert url[24..29] == "watch";
    LiteralAt(Www + Host + "watch?", "v=", id);
    assert url[32..32 + IdLength] == id;
    assert url[29] == '?';
    assert QueryAlt(url, 24, 5) == Some(id);
    assert url[24] == 'w' && url[25] == 'a' && url[26] == 't' && url[27] == 'c' && url[28] == 'h';
    assert QueryAlt(url, 24, 4) == Some(id);
    assert QueryAlt(url, 24, 3) == Some(id);
    assert QueryAlt(url, 24, 2) == Some(id);
    assert QueryAlt(url, 24, 1) == Some(id);
  }

  lemma WatchCore(id: string)
    requires IsVideoId(id)
    ensures CoreAt(WatchPrefix + id, 12) == Some(id)
  {
    var url := WatchPrefix + id;
    IdChars(id);
    assert url == Www + Host + ("watch?v=" + id);
    LiteralAt(Www, Host, "watch?v=" + id);
    assert forall i :: 24 <= i < |url| ==> url[i] != '/' && !IsSpace(url[i]);
    assert SegmentRun(url, 24) == |url| - 24;
    assert url[24] == 'w';
    NotAt(url, 24, "v/", 0);
    NotAt(url, 24, "embed/", 0);
    NotAt(url, 24, "e/", 0);
    WatchQuery(id);
  }

  /** The watch form `https://www.youtube.com/watch?v=<id>` captures its id (alternative A3). */
  lemma MatchWatchForm(id: string)
    requires IsVideoId(id)
    ensures MatchId(WatchPrefix + id) == Some(id)
  {
    assert WatchPrefix + id == Www + (Host + "watch?v=" + id);
    SkipWww(Host + "watch?v=" + id);
    WatchCore(id);
  }

  lemma ShortCore(id: string)
    requires IsVideoId(id)
    ensures CoreAt(ShortPrefix + id, 8) == Some(id)
  {
    var url := ShortPrefix + id;
    assert url == Https + ShortHost + id;
    assert url[13] == '.';
    NotAt(url, 8, Host, 5);
    LiteralAt(Https, ShortHost, id);
    assert url[17..17 + IdLength] == id;
  }

  /** The short form `https://youtu.be/<id>` captures its id. */
  lemma MatchShortForm(id: string)
    requires IsVideoId(id)
    ensures MatchId(ShortPrefix + id) == Some(id)
  {
    var url := ShortPrefix + id;
    assert forall i :: 0 <= i < 8 ==> url[i] == Https[i];
    SkipNoY(url, 0, 8);
    ShortCore(id);
  }

  /** Building the embed address is idempotent: an embed address is recognised as itself. */
  lemma EmbedUrlIdempotent(url: string)
    requires IsYouTubeUrl(url)
    ensures GetYouTubeEmbedUrl(GetYouTubeEmbedUrl(url).value) == GetYouTubeEmbedUrl(url)
  {
    MatchEmbedForm(MatchId(url).value);
  }
}
