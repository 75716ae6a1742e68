/**
 * The download table and its value conversions (src-tauri/src/database.rs).
 * The SQL table is a sequence of rows in ascending id order; each column holds
 * the lower-case token the application writes.
 */
module Database {
  import opened Common
  import opened Text

  /* ------------------------------ enums and tokens ------------------------------ */

  datatype Platform = Youtube | Tiktok | Instagram | Pinterest
  datatype MediaKind = Image | Video
  datatype Origin = Recommendation | Playlist | Profile | Bookmarks | Pinboard | Other | Manual
  datatype DownloadStatus = Queue | Backlog | Done
  datatype OnDuplicate = Overwrite | CreateNew | DoNothing
  datatype OutputFormat = DefaultFormat | AudioFormat | VideoFormat

  /** Lower-cased `{:?}` names, as `insert_download` writes them. */
  function PlatformToken(p: Platform): string {
    match p
    case Youtube => "youtube"
    case Tiktok => "tiktok"
    case Instagram => "instagram"
    case Pinterest => "pinterest"
  }

  function MediaToken(m: MediaKind): string {
    match m
    case Image => "image"
    case Video => "video"
  }

  function OriginToken(o: Origin): string {
    match o
    case Recommendation => "recommendation"
    case Playlist => "playlist"
    case Profile => "profile"
    case Bookmarks => "bookmarks"
    case Pinboard => "pinboard"
    case Other => "other"
    case Manual => "manual"
  }

  function StatusToken(s: DownloadStatus): string {
    match s
    case Queue => "queue"
    case Backlog => "backlog"
    case Done => "done"
  }

  function OnDuplicateToken(d: OnDuplicate): string {
    match d
    case Overwrite => "overwrite"
    case CreateNew => "create_new"
    case DoNothing => "do_nothing"
  }

  function FormatToken(f: OutputFormat): string {
    match f
    case DefaultFormat => "default"
    case AudioFormat => "audio"
    case VideoFormat => "video"
  }

  /** The platform a lower-cased token names; anything unknown is Youtube. */
  function PlatformOfToken(t: string): Platform {
    if t == "youtube" then Youtube
    else if t == "tiktok" then Tiktok
    else if t == "instagram" then Instagram
    else if t == "pinterest" then Pinterest
    else Youtube
  }

  /** `From<String> for Platform`: the token read case-insensitively. */
  function PlatformFrom(s: string): (p: Platform)
    ensures p != Youtube ==> ToLower(s) == PlatformToken(p)
  {
    PlatformOfToken(ToLower(s))
  }

  /** The media kind a lower-cased token names, singular or plural; anything unknown is Video. */
  function MediaOfToken(t: string): MediaKind {
    if t == "image" then Image
    else if t == "images" then Image
    else if t == "video" then Video
    else if t == "videos" then Video
    else Video
  }

  /** `From<String> for MediaKind`. */
  function MediaFrom(s: string): (m: MediaKind)
    ensures m == Image <==> ToLower(s) == "image" || ToLower(s) == "images"
  {
    MediaOfToken(ToLower(s))
  }

  /** The origin a lower-cased token names; anything unknown is Manual. */
  function OriginOfToken(t: string): Origin {
    if t == "recommendation" then Recommendation
    else if t == "playlist" then Playlist
    else if t == "profile" then Profile
    else if t == "bookmarks" then Bookmarks
    else if t == "pinboard" then Pinboard
    else if t == "other" then Other
    else if t == "manual" then Manual
    else Manual
  }

  /** `From<String> for Origin`. */
  function OriginFrom(s: string): (o: Origin)
    ensures o != Manual ==> ToLower(s) == OriginToken(o)
  {
    OriginOfToken(ToLower(s))
  }

  /** The status a lower-cased token names; anything unknown is Queue. */
  function StatusOfToken(t: string): DownloadStatus {
    if t == "queue" then Queue
    else if t == "backlog" then Backlog
    else if t == "done" then Done
    else Queue
  }

  /** `From<String> for DownloadStatus`. */
  function StatusFrom(s: string): (st: DownloadStatus)
    ensures st != Queue ==> ToLower(s) == StatusToken(st)
  {
    StatusOfToken(ToLower(s))
  }

  /** The duplicate policy a lower-cased token names; anything unknown is CreateNew. */
  function OnDuplicateOfToken(t: string): OnDuplicate {
    if t == "overwrite" then Overwrite
    else if t == "create_new" then CreateNew
    else if t == "do_nothing" then DoNothing
    else CreateNew
  }

  /** `From<String> for OnDuplicate`. */
  function OnDuplicateFrom(s: string): (d: OnDuplicate)
    ensures d != CreateNew ==> ToLower(s) == OnDuplicateToken(d)
  {
    OnDuplicateOfToken(ToLower(s))
  }

  /** The output format a lower-cased token names; anything but audio or video is Default. */
  function FormatOfToken(t: string): OutputFormat {
    if t == "audio" then AudioFormat
    else if t == "video" then VideoFormat
    else DefaultFormat
  }

  /** `From<String> for OutputFormat`. */
  function FormatFrom(s: string): (f: OutputFormat)
    ensures f != DefaultFormat ==> ToLower(s) == FormatToken(f)
  {
    FormatOfToken(ToLower(s))
  }

  /** Every conversion reads its input through `to_lowercase`, so case never matters. */
  lemma ConversionsIgnoreCase(s: string)
    ensures PlatformFrom(s) == PlatformFrom(ToLower(s))
    ensures MediaFrom(s) == MediaFrom(ToLower(s))
    ensures OriginFrom(s) == OriginFrom(ToLower(s))
    ensures StatusFrom(s) == StatusFrom(ToLower(s))
    ensures OnDuplicateFrom(s) == OnDuplicateFrom(ToLower(s))
    ensures FormatFrom(s) == FormatFrom(ToLower(s))
  {
    ToLowerIdempotent(s);
  }

  /** Decoding the token `insert_download` writes gives the value back. */
  lemma PlatformRoundTrip(p: Platform)
    ensures PlatformFrom(PlatformToken(p)) == p
  {
    PlatformTokenLower(p);
    assert PlatformOfToken(PlatformToken(p)) == p;
  }

  lemma PlatformTokenLower(p: Platform)
    ensures ToLower(PlatformToken(p)) == PlatformToken(p)
  {
    match p
    case Youtube => ToLowerNoUpper("youtube");
    case Tiktok => ToLowerNoUpper("tiktok");
    case Instagram => ToLowerNoUpper("instagram");
    case Pinterest => ToLowerNoUpper("pinterest");
  }

  lemma MediaRoundTrip(m: MediaKind)
    ensures MediaFrom(MediaToken(m)) == m
  {
    MediaTokenLower(m);
    assert MediaOfToken(MediaToken(m)) == m;
  }

  lemma MediaTokenLower(m: MediaKind)
    ensures ToLower(MediaToken(m)) == MediaToken(m)
  {
    match m
    case Image => ToLowerNoUpper("image");
    case Video => ToLowerNoUpper("video");
  }

  lemma OriginRoundTrip(o: Origin)
    ensures OriginFrom(OriginToken(o)) == o
  {
    OriginTokenLower(o);
    assert OriginOfToken(OriginToken(o)) == o;
  }

  lemma OriginTokenLower(o: Origin)
    ensures ToLower(OriginToken(o)) == OriginToken(o)
  {
    match o
    case Recommendation => ToLowerNoUpper("recommendation");
    case Playlist => ToLowerNoUpper("playlist");
    case Profile => ToLowerNoUpper("profile");
    case Bookmarks => ToLowerNoUpper("bookmarks");
    case Pinboard => ToLowerNoUpper("pinboard");
    case Other => ToLowerNoUpper("other");
    case Manual => ToLowerNoUpper("manual");
  }

  lemma StatusRoundTrip(s: DownloadStatus)
    ensures StatusFrom(StatusToken(s)) == s
  {
    StatusTokenLower(s);
    assert StatusOfToken(StatusToken(s)) == s;
  }

  lemma StatusTokenLower(s: DownloadStatus)
    ensures ToLower(StatusToken(s)) == StatusToken(s)
  {
    match s
    case Queue => ToLowerNoUpper("queue");
    case Backlog => ToLowerNoUpper("backlog");
    case Done => ToLowerNoUpper("done");
  }

  lemma OnDuplicateRoundTrip(d: OnDuplicate)
    ensures OnDuplicateFrom(OnDuplicateToken(d)) == d
  {
    OnDuplicateTokenLower(d);
    assert OnDuplicateOfToken(OnDuplicateToken(d)) == d;
  }

  lemma OnDuplicateTokenLower(d: OnDuplicate)
    ensures ToLower(OnDuplicateToken(d)) == OnDuplicateToken(d)
  {
    match d
    case Overwrite => ToLowerNoUpper("overwrite");
    case CreateNew => ToLowerNoUpper("create_new");
    case DoNothing => ToLowerNoUpper("do_nothing");
  }

  lemma FormatRoundTrip(f: OutputFormat)
    ensures FormatFrom(FormatToken(f)) == f
  {
    FormatTokenLower(f);
    assert FormatOfToken(FormatToken(f)) == f;
  }

  lemma FormatTokenLower(f: OutputFormat)
    ensures ToLower(FormatToken(f)) == FormatToken(f)
  {
    match f
    case DefaultFormat => ToLowerNoUpper("default");
    case AudioFormat => ToLowerNoUpper("audio");
    case VideoFormat => ToLowerNoUpper("video");
  }


  /* ------------------------------ rows ------------------------------ */

  /** A download as the application builds it (dates and the image-set id are not modelled). */
  datatype Download = Download(
    platform: Platform, name: string, media: MediaKind, user: string, origin: Origin,
    link: string, outputFormat: OutputFormat, status: DownloadStatus, path: string)

  /** A stored row: every enum column holds its token. */
  datatype Row = Row(
    id: int, platform: string, name: string, media: string, userHandle: string, origin: string,
    link: string, outputFormat: string, status: string, path: string)

  /** The path column is never left empty. */
  function StoredPath(path: string): (r: string)
    ensures r != []
    ensures path != [] ==> r == path
    ensures path == [] ==> r == "unknown_path"
  {
    if path == [] then "unknown_path" else path
  }

  function EncodeDownload(d: Download, id: int): Row {
    Row(id, PlatformToken(d.platform), d.name, MediaToken(d.media), d.user, OriginToken(d.origin),
        d.link, FormatToken(d.outputFormat), StatusToken(d.status), StoredPath(d.path))
  }

  /** A stored row decodes to the download it came from, except that an empty path reads as `unknown_path`. */
  lemma EncodeDecode(d: Download, id: int)
    ensures var r := EncodeDownload(d, id);
      PlatformFrom(r.platform) == d.platform && MediaFrom(r.media) == d.media
      && OriginFrom(r.origin) == d.origin && FormatFrom(r.outputFormat) == d.outputFormat
      && StatusFrom(r.status) == d.status && r.name == d.name && r.userHandle == d.user
      && r.link == d.link && r.path != [] && (d.path != [] ==> r.path == d.path)
      && (d.path == [] ==> r.path == "unknown_path")
  {
    PlatformRoundTrip(d.platform);
    MediaRoundTrip(d.media);
    OriginRoundTrip(d.origin);
    FormatRoundTrip(d.outputFormat);
    StatusRoundTrip(d.status);
  }

  /* ------------------------------ link normalisation ------------------------------ */

  /** The text after the first `://` at or after `i`, or all of `s` when there is none. */
  function AfterSchemeFrom(s: string, i: nat): (r: string)
    requires i <= |s|
    ensures |r| <= |s|
    decreases |s| - i
  {
    if i + 3 > |s| then s
    else if s[i] == ':' && s[i + 1] == '/' && s[i + 2] == '/' then s[i + 3..]
    else AfterSchemeFrom(s, i + 1)
  }

  /** `normalize_link`'s first step: the text after the first `://`, or all of it. */
  function AfterScheme(s: string): (r: string)
    ensures |r| <= |s|
  {
    AfterSchemeFrom(s, 0)
  }

  /** `normalize_link`'s second step: the host (up to the first `/`) lower-cased; everything lower-cased when there is no `/`. */
  function LowerHost(s: string): (r: string)
    ensures |r| == |s|
  {
    if '/' in s then
      var i := IndexOfChar(s, '/');
      ToLower(s[..i]) + s[i..]
    else ToLower(s)
  }

  /** `normalize_link`'s third step: a leading `www.` (repeated) removed. */
  function DropWww(s: string): (r: string)
    ensures |r| <= |s|
  {
    if "www." <= s then TrimStartMatches(s, "www.") else s
  }

  /**
   * `normalize_link` rewrites its string in five steps: 0 strips the scheme,
   * 1 lower-cases the host, 2 drops `www.`, 3 drops the query and 4 pops
   * trailing slashes. `NormalizeFrom(s, step)` applies the steps from `step` on.
   */
  function NormalizeFrom(s: string, step: nat): (r: string)
    requires step <= 4
    ensures r == [] || r[|r| - 1] != '/'
    ensures (step <= 3 || '?' !in s) ==> '?' !in r
    decreases 4 - step
  {
    if step == 0 then NormalizeFrom(AfterScheme(s), 1)
    else if step == 1 then NormalizeFrom(LowerHost(s), 2)
    else if step == 2 then NormalizeFrom(DropWww(s), 3)
    else if step == 3 then NormalizeFrom(TakeUntil(s, {'?'}), 4)
    else
      var r := TrimEndChars(s, {'/'});
      assert forall k :: 0 <= k < |r| ==> r[k] == s[k];
      r
  }

  /** `normalize_link`: scheme removed, host lower-cased, leading `www.` removed, query dropped, trailing slashes popped. */
  function NormalizedLink(s: string): (r: string)
    ensures '?' !in r
    ensures r == [] || r[|r| - 1] != '/'
  {
    NormalizeFrom(s, 0)
  }

  /** The imperative form of `normalize_link`, with its `while ends_with('/') pop()` loop. */
  method NormalizeLink(s0: string) returns (s: string)
    ensures s == NormalizedLink(s0)
  {
    s := AfterScheme(s0);
    assert NormalizeFrom(s0, 0) == NormalizeFrom(s, 1);
    ghost var prev := s;
    s := LowerHost(s);
    assert NormalizeFrom(prev, 1) == NormalizeFrom(s, 2);
    prev := s;
    if "www." <= s {
      s := TrimStartMatches(s, "www.");
    }
    assert NormalizeFrom(prev, 2) == NormalizeFrom(s, 3);
    prev := s;
    s := TakeUntil(s, {'?'});
    assert NormalizeFrom(prev, 3) == NormalizeFrom(s, 4);
    ghost var c := s;
    while s != [] && s[|s| - 1] == '/'
      invariant TrimEndChars(s, {'/'}) == TrimEndChars(c, {'/'})
      decreases |s|
    {
      s := s[..|s| - 1];
    }
  }

  /** A link with no upper-case host, no `www.`, no query and no trailing slash normalises to host and path, path case untouched. */
  lemma NormalizedLinkOf(scheme: string, host: string, path: string)
    requires !Contains(scheme + ":/", "://")
    requires '/' !in host && '?' !in host && forall k :: 0 <= k < |host| ==> !('A' <= host[k] <= 'Z')
    requires !("www." <= host)
    requires path != [] && path[0] == '/' && path[|path| - 1] != '/' && '?' !in path
    ensures NormalizedLink(scheme + "://" + host + path) == host + path
  {
    var link := scheme + "://" + host + path;
    var hp := host + path;
    assert link == scheme + "://" + hp;
    AfterSchemeOf(scheme, hp);
    LowerHostOf(host, path);
    NoWwwOf(host, path);
    assert '?' !in hp;
    NormalizeFromHostOn(hp);
    assert NormalizeFrom(link, 0) == NormalizeFrom(hp, 1);
  }

  /** From the host step on, a link already in normal form is left alone. */
  lemma NormalizeFromHostOn(hp: string)
    requires LowerHost(hp) == hp && DropWww(hp) == hp && '?' !in hp
    requires hp != [] && hp[|hp| - 1] != '/'
    ensures NormalizeFrom(hp, 1) == hp
  {
    assert NormalizeFrom(hp, 1) == NormalizeFrom(hp, 2);
    assert NormalizeFrom(hp, 2) == NormalizeFrom(hp, 3);
    TakeUntilWhole(hp, [], {'?'});
    assert hp + [] == hp;
    assert NormalizeFrom(hp, 3) == NormalizeFrom(hp, 4);
  }

  lemma NoWwwOf(host: string, path: string)
    requires !("www." <= host) && path != [] && path[0] == '/'
    ensures DropWww(host + path) == host + path
  {
    if |host| >= 4 {
      assert (host + path)[..4] == host[..4];
    } else {
      assert (host + path)[|host|] == '/';
    }
  }

  /** The scheme search passes every position before the first `://`. */
  lemma {:induction false} AfterSchemeFromOf(s: string, i: nat, k: nat)
    requires i <= k && OccursAt(s, "://", k)
    requires forall j :: i <= j < k ==> !OccursAt(s, "://", j)
    ensures AfterSchemeFrom(s, i) == s[k + 3..]
    decreases k - i
  {
    if i < k {
      SchemeAt(s, i);
      AfterSchemeFromOf(s, i + 1, k);
    } else {
      SchemeAt(s, k);
    }
  }

  /** The character test of the scheme search is `OccursAt` for `://`. */
  lemma SchemeAt(s: string, i: nat)
    requires i + 3 <= |s|
    ensures (s[i] == ':' && s[i + 1] == '/' && s[i + 2] == '/') <==> OccursAt(s, "://", i)
  {
    if s[i] == ':' && s[i + 1] == '/' && s[i + 2] == '/' {
      assert s[i..i + 3] == "://";
    }
  }

  lemma AfterSchemeOf(scheme: string, rest: string)
    requires !Contains(scheme + ":/", "://")
    ensures AfterScheme(scheme + "://" + rest) == rest
  {
    var s := scheme + "://" + rest;
    assert OccursAt(s, "://", |scheme|) by {
      assert s[|scheme|..|scheme| + 3] == "://";
    }
    forall j | 0 <= j < |scheme|
      ensures !OccursAt(s, "://", j)
    {
      if OccursAt(s, "://", j) {
        assert s[j..j + 3] == (scheme + ":/")[j..j + 3];
        ContainsAt(scheme + ":/", "://", j);
      }
    }
    AfterSchemeFromOf(s, 0, |scheme|);
    assert s[|scheme| + 3..] == rest;
  }

  lemma LowerHostOf(host: string, path: string)
    requires '/' !in host && forall k :: 0 <= k < |host| ==> !('A' <= host[k] <= 'Z')
    requires path != [] && path[0] == '/'
    ensures LowerHost(host + path) == host + path
  {
    var s := host + path;
    assert s[|host|] == '/';
    assert s[..|host|] == host;
    IndexOfCharUnique(s, '/', |host|);
    ToLowerNoUpper(host);
    assert s[|host|..] == path;
  }

  /** With no `://` at or after the position, the scheme search returns the whole link. */
  lemma {:induction false} AfterSchemeFromNone(s: string, i: nat)
    requires i <= |s|
    requires forall k :: i <= k ==> !OccursAt(s, "://", k)
    ensures AfterSchemeFrom(s, i) == s
    decreases |s| - i
  {
    if i + 3 <= |s| {
      SchemeAt(s, i);
      AfterSchemeFromNone(s, i + 1);
    }
  }

  /** Each character before the first `/` is lower-cased; from the first `/` on, each is kept. */
  lemma LowerHostAt(s: string, k: nat)
    requires k < |s|
    ensures LowerHost(s)[k] == if '/' in s[..k] then s[k] else LowerChar(s[k])
  {
    if '/' in s {
      var i := IndexOfChar(s, '/');
      if k > i {
        assert s[..k][i] == '/';
      } else {
        assert s[..k] == s[..i][..k];
      }
    } else {
      assert s[..k] <= s;
    }
  }

  /** The `www.` step keeps a suffix of its input that no longer starts with `www.`, and keeps anything else whole. */
  lemma DropWwwShape(s: string)
    ensures DropWww(s) == s[|s| - |DropWww(s)|..]
    ensures !("www." <= DropWww(s))
    ensures !("www." <= s) ==> DropWww(s) == s
  {
    if "www." <= s {
      TrimStartMatchesLeaves(s, "www.");
    }
  }

  /* ------------------------------ collection folder label ------------------------------ */

  /** The origin half of a folder label: trimmed, `manual` when blank. */
  function LabelOrigin(origin: string): (o: string)
    ensures o != []
    ensures Trim(origin) == [] ==> o == "manual"
    ensures Trim(origin) != [] ==> o == Trim(origin)
  {
    var t := Trim(origin);
    if t == [] then "manual" else t
  }

  /** The handle half: trimmed, `Unknown` when blank or any spelling of "unknown". */
  function LabelHandle(handle: string): (u: string)
    ensures u != []
    ensures Trim(handle) == [] ==> u == "Unknown"
    ensures ToLower(Trim(handle)) == "unknown" ==> u == "Unknown"
    ensures Trim(handle) != [] && ToLower(Trim(handle)) != "unknown" ==> u == Trim(handle)
  {
    var t := Trim(handle);
    if t == [] || ToLower(t) == "unknown" then "Unknown" else t
  }

  /** `collection_folder_label`: `"{origin} - {handle}"`. */
  function CollectionFolderLabel(origin: string, handle: string): (r: string)
    ensures Trim(origin) == [] && Trim(handle) == [] ==> r == "manual - Unknown"
    ensures Trim(origin) == [] && ToLower(Trim(handle)) == "unknown" ==> r == "manual - Unknown"
    ensures Trim(origin) != [] && Trim(handle) != [] && ToLower(Trim(handle)) != "unknown"
      ==> r == Trim(origin) + " - " + Trim(handle)
  {
    LabelOrigin(origin) + " - " + LabelHandle(handle)
  }

  /** The label splits back into its two non-blank halves at its first ` - ` when the origin has no `-`. */
  lemma CollectionFolderLabelParts(origin: string, handle: string)
    requires '-' !in Trim(origin)
    ensures Find(CollectionFolderLabel(origin, handle), " - ") == Some(|LabelOrigin(origin)|)
    ensures CollectionFolderLabel(origin, handle)[..|LabelOrigin(origin)|] == LabelOrigin(origin)
    ensures CollectionFolderLabel(origin, handle)[|LabelOrigin(origin)| + 3..] == LabelHandle(handle)
  {
    var o := LabelOrigin(origin);
    if Trim(origin) == [] {
      assert o == "manual";
      assert forall k :: 0 <= k < |o| ==> o[k] != '-';
    }
    DashLabelParts(o, LabelHandle(handle));
  }

  /** `u - t` with a dash-free `u` splits back at its first ` - `. */
  lemma DashLabelParts(u: string, t: string)
    requires '-' !in u
    ensures Find(u + " - " + t, " - ") == Some(|u|)
    ensures (u + " - " + t)[..|u|] == u && (u + " - " + t)[|u| + 3..] == t
  {
    FindDashSeparator(u, t);
    assert (u + " - " + t)[..|u|] == u;
  }

  /* ------------------------------ UI rows ------------------------------ */

  /** A row as the Downloads page receives it. */
  datatype UiRow = UiRow(platform: string, contentType: string, handle: string, media: string, link: string, outputFormat: string)

  predicate IsUiContentType(t: string) {
    t == "recommendation" || t == "playlist" || t == "profile" || t == "bookmarks" || t == "liked" || t == "reposts"
  }

  /** The UI type of a stored origin: itself when the page knows it, else `recommendation`. */
  function UiContentType(origin: string): (t: string)
    ensures IsUiContentType(t)
    ensures IsUiContentType(origin) <==> t == origin
  {
    if IsUiContentType(origin) then origin else "recommendation"
  }

  /** The UI media token: `pictures` exactly for stored `image`/`images`, else `video`. */
  function UiMedia(media: string): (m: string)
    ensures m == "pictures" || m == "video"
    ensures m == "pictures" <==> media == "image" || media == "images"
  {
    if media == "image" || media == "images" then "pictures" else "video"
  }

  function UiRowOf(r: Row): UiRow {
    UiRow(r.platform, UiContentType(r.origin), r.userHandle, UiMedia(r.media), r.link, r.outputFormat)
  }

  /** The rows with one status, converted for the UI, in table order. */
  function UiRowsWithStatus(rows: seq<Row>, status: string): (ui: seq<UiRow>)
    ensures |ui| <= |rows|
    ensures forall u :: u in ui ==> IsUiContentType(u.contentType)
    ensures forall u :: u in ui ==> exists r :: r in rows && r.status == status && u == UiRowOf(r)
    ensures forall r :: r in rows && r.status == status ==> UiRowOf(r) in ui
  {
    if rows == [] then []
    else
      assert rows == [rows[0]] + rows[1..];
      var rest := UiRowsWithStatus(rows[1..], status);
      if rows[0].status == status then [UiRowOf(rows[0])] + rest else rest
  }

  /** The listing keeps table order: listing two runs of rows is listing each and concatenating. */
  lemma {:induction false} UiRowsAppend(a: seq<Row>, b: seq<Row>, status: string)
    ensures UiRowsWithStatus(a + b, status) == UiRowsWithStatus(a, status) + UiRowsWithStatus(b, status)
  {
    if a == [] {
      assert a + b == b;
    } else {
      assert (a + b)[0] == a[0];
      assert (a + b)[1..] == a[1..] + b;
      UiRowsAppend(a[1..], b, status);
      var rest := UiRowsWithStatus(a[1..], status);
      var tail := UiRowsWithStatus(b, status);
      assert [UiRowOf(a[0])] + (rest + tail) == ([UiRowOf(a[0])] + rest) + tail;
    }
  }

  /** The number of rows with a status. */
  function CountStatus(rows: seq<Row>, status: string): nat {
    if rows == [] then 0 else (if rows[0].status == status then 1 else 0) + CountStatus(rows[1..], status)
  }

  /** Each listing holds one UI row per row of its status. */
  lemma {:induction false} UiRowsCount(rows: seq<Row>, status: string)
    ensures |UiRowsWithStatus(rows, status)| == CountStatus(rows, status)
  {
    if rows != [] {
      UiRowsCount(rows[1..], status);
    }
  }

  /* ------------------------------ selecting rows ------------------------------ */

  /** The `WHERE` part of the status moves. */
  datatype Selector =
    | ByLink(link: string)
    | ByCollection(platform: string, handle: string, origin: string)
    | ByPlatform(platform: string)

  predicate Selects(sel: Selector, r: Row) {
    match sel
    case ByLink(link) => r.link == link
    case ByCollection(p, h, o) => r.platform == p && r.userHandle == h && r.origin == o
    case ByPlatform(p) => r.platform == p
  }

  /** The row after `UPDATE ... SET status=to WHERE <sel> AND status=from`. */
  function Moved(r: Row, sel: Selector, from: string, to: string): Row {
    if Selects(sel, r) && r.status == from then r.(status := to) else r
  }

  function MoveRows(rows: seq<Row>, sel: Selector, from: string, to: string): (r: seq<Row>)
    ensures |r| == |rows|
    ensures forall k :: 0 <= k < |r| ==> r[k] == Moved(rows[k], sel, from, to)
  {
    seq(|rows|, k requires 0 <= k < |rows| => Moved(rows[k], sel, from, to))
  }

  /** The number of rows an update changes. */
  function CountMoved(rows: seq<Row>, sel: Selector, from: string): nat {
    if rows == [] then 0
    else CountMoved(rows[..|rows| - 1], sel, from) + (if Selects(sel, rows[|rows| - 1]) && rows[|rows| - 1].status == from then 1 else 0)
  }

  /** Only selected rows with the old status change, and only in their status. */
  lemma MoveTouchesOnlySelected(rows: seq<Row>, sel: Selector, from: string, to: string, k: nat)
    requires k < |rows| && from != to
    ensures MoveRows(rows, sel, from, to)[k] != rows[k] <==> Selects(sel, rows[k]) && rows[k].status == from
    ensures MoveRows(rows, sel, from, to)[k].id == rows[k].id
    ensures MoveRows(rows, sel, from, to)[k].link == rows[k].link
  {
  }

  /** The row-by-row pass of an `UPDATE`: each row moved, and the changed ones counted. */
  method UpdateRows(rows: seq<Row>, sel: Selector, from: string, to: string) returns (out: seq<Row>, n: nat)
    ensures out == MoveRows(rows, sel, from, to)
    ensures n == CountMoved(rows, sel, from)
  {
    out := [];
    n := 0;
    var i := 0;
    while i < |rows|
      invariant 0 <= i <= |rows| && |out| == i
      invariant forall k :: 0 <= k < i ==> out[k] == Moved(rows[k], sel, from, to)
      invariant n == CountMoved(rows[..i], sel, from)
    {
      assert rows[..i + 1][..i] == rows[..i];
      if Selects(sel, rows[i]) && rows[i].status == from {
        n := n + 1;
      }
      out := out + [Moved(rows[i], sel, from, to)];
      i := i + 1;
    }
    assert rows[..|rows|] == rows;
  }

  /** The table's id invariant: ids ascend with position and stay in `[1, nextId)`. */
  predicate IdsValid(rows: seq<Row>, nextId: int) {
    nextId >= 1
    && (forall i, j :: 0 <= i < j < |rows| ==> rows[i].id < rows[j].id)
    && (forall i :: 0 <= i < |rows| ==> 1 <= rows[i].id < nextId)
  }

  /** Replacing one row by a row with the same id keeps the id invariant. */
  lemma ReplaceKeepsValid(rows: seq<Row>, nextId: int, t: nat, r: Row)
    requires IdsValid(rows, nextId)
    requires t < |rows| && r.id == rows[t].id
    ensures IdsValid(rows[t := r], nextId)
  {
  }

  /** A move keeps every id, so it keeps the id invariant. */
  lemma MoveKeepsValid(rows: seq<Row>, nextId: int, sel: Selector, from: string, to: string)
    requires IdsValid(rows, nextId)
    ensures IdsValid(MoveRows(rows, sel, from, to), nextId)
  {
  }

  /** Appending a row with id `nextId` keeps the invariant for `nextId + 1`. */
  lemma AppendKeepsValid(rows: seq<Row>, nextId: int, r: Row)
    requires IdsValid(rows, nextId) && r.id == nextId
    ensures IdsValid(rows + [r], nextId + 1)
  {
  }

  /** Moving rows and moving them back restores the table when no selected row already had the target status. */
  lemma MoveBack(rows: seq<Row>, sel: Selector, from: string, to: string)
    requires forall k :: 0 <= k < |rows| && Selects(sel, rows[k]) ==> rows[k].status != to
    ensures MoveRows(MoveRows(rows, sel, from, to), sel, to, from) == rows
  {
    var there := MoveRows(rows, sel, from, to);
    var back := MoveRows(there, sel, to, from);
    forall k | 0 <= k < |rows|
      ensures back[k] == rows[k]
    {
      assert there[k] == Moved(rows[k], sel, from, to);
    }
  }

  /** The number of changed rows never exceeds the table size. */
  lemma {:induction false} CountMovedBound(rows: seq<Row>, sel: Selector, from: string)
    ensures CountMoved(rows, sel, from) <= |rows|
  {
    if rows != [] {
      CountMovedBound(rows[..|rows| - 1], sel, from);
    }
  }

  /* ------------------------------ priorities ------------------------------ */

  /** `CASE status WHEN 'queue' THEN 0 WHEN 'backlog' THEN 1 ELSE 2 END`. */
  function Rank(status: string): nat {
    if status == "queue" then 0 else if status == "backlog" then 1 else 2
  }

  /** Row `i` comes before row `j` in `ORDER BY <rank>, id` (ids ascend with position). */
  predicate Before(rows: seq<Row>, i: nat, j: nat)
    requires i < |rows| && j < |rows|
  {
    Rank(rows[i].status) < Rank(rows[j].status) || (Rank(rows[i].status) == Rank(rows[j].status) && i <= j)
  }

  /** The first row with the link in `ORDER BY <rank>, id`, computed over a prefix. */
  function PickForLink(rows: seq<Row>, link: string): (r: Option<nat>)
    ensures r.Some? ==> r.value < |rows| && rows[r.value].link == link
    ensures r.Some? ==> forall j :: 0 <= j < |rows| && rows[j].link == link ==> Before(rows, r.value, j)
    ensures r.None? ==> forall j :: 0 <= j < |rows| ==> rows[j].link != link
  {
    if rows == [] then None
    else
      var init := rows[..|rows| - 1];
      var last := |rows| - 1;
      var best := PickForLink(init, link);
      assert forall j :: 0 <= j < |init| ==> rows[j] == init[j];
      if rows[last].link != link then best
      else
        match best
        case None => Some(last)
        case Some(b) => if Rank(rows[last].status) < Rank(rows[b].status) then Some(last) else Some(b)
  }

  /** One more row either leaves the pick alone or picks that row. */
  lemma PickForLinkStep(rows: seq<Row>, link: string, i: nat)
    requires i < |rows|
    ensures var best := PickForLink(rows[..i], link);
      PickForLink(rows[..i + 1], link) ==
        if rows[i].link != link then best
        else if best.None? || Rank(rows[i].status) < Rank(rows[best.value].status) then Some(i)
        else best
  {
    assert rows[..i + 1][..i] == rows[..i];
  }

  /** The toggle rule: `audio` becomes `video`, `video` and anything else become `audio`. */
  function ToggledFormat(fmt: string): (r: string)
    ensures r == "audio" || r == "video"
    ensures r == "video" <==> fmt == "audio"
  {
    if fmt == "audio" then "video"
    else if fmt == "video" then "audio"
    else "audio"
  }

  /** Toggling twice returns an explicit audio or video choice to itself. */
  lemma ToggleTwice(fmt: string)
    requires fmt == "audio" || fmt == "video"
    ensures ToggledFormat(ToggledFormat(fmt)) == fmt
  {
  }

  /** The normalized link of every row, in table order (what `mark_link_done` compares against). */
  function LinkKeys(rows: seq<Row>): (keys: seq<string>)
    ensures |keys| == |rows|
  {
    if rows == [] then [] else LinkKeys(rows[..|rows| - 1]) + [NormalizedLink(rows[|rows| - 1].link)]
  }

  /** The key of row `j` is its normalized link. */
  lemma {:induction false} LinkKeysAt(rows: seq<Row>, j: nat)
    requires j < |rows|
    ensures LinkKeys(rows)[j] == NormalizedLink(rows[j].link)
  {
    if j < |rows| - 1 {
      var front := rows[..|rows| - 1];
      LinkKeysAt(front, j);
      assert front[j] == rows[j];
    }
  }

  /** Every row's link through `normalize_link`, in table order. */
  method NormalizeLinks(rows: seq<Row>) returns (keys: seq<string>)
    ensures keys == LinkKeys(rows)
  {
    keys := [];
    var i := 0;
    while i < |rows|
      invariant 0 <= i <= |rows| && keys == LinkKeys(rows[..i])
    {
      var key := NormalizeLink(rows[i].link);
      assert rows[..i + 1][..i] == rows[..i];
      keys := keys + [key];
      i := i + 1;
    }
    assert rows[..|rows|] == rows;
  }

  /** Row `j` is queued and its key is `norm`. */
  predicate IsQueuedMatch(rows: seq<Row>, keys: seq<string>, norm: string, j: nat)
    requires |keys| == |rows| && j < |rows|
  {
    rows[j].status == "queue" && keys[j] == norm
  }

  /** The row index `mark_link_done` updates: the first queued row, from `i` on, whose key is `norm`. */
  function QueuedMatchFrom(rows: seq<Row>, keys: seq<string>, norm: string, i: nat): (r: Option<nat>)
    requires |keys| == |rows| && i <= |rows|
    ensures r.Some? ==> i <= r.value < |rows| && IsQueuedMatch(rows, keys, norm, r.value)
    ensures r.Some? ==> forall j :: i <= j < r.value ==> !IsQueuedMatch(rows, keys, norm, j)
    ensures r.None? ==> forall j :: i <= j < |rows| ==> !IsQueuedMatch(rows, keys, norm, j)
    decreases |rows| - i
  {
    if i == |rows| then None
    else if IsQueuedMatch(rows, keys, norm, i) then Some(i)
    else QueuedMatchFrom(rows, keys, norm, i + 1)
  }

  /** Rows whose link is exactly `link` have the key of `link`. */
  lemma KeysOfEqualLinks(rows: seq<Row>, link: string)
    ensures forall j :: 0 <= j < |rows| && rows[j].link == link ==> LinkKeys(rows)[j] == NormalizedLink(link)
  {
    forall j | 0 <= j < |rows| && rows[j].link == link
      ensures LinkKeys(rows)[j] == NormalizedLink(link)
    {
      LinkKeysAt(rows, j);
    }
  }

  /**
   * The exact-link fallback of `mark_link_done` never finds a row: when no queued
   * row's key is the argument's key, no queued row has the argument as its link
   * (its key would be the same, by `KeysOfEqualLinks`).
   */
  lemma NoQueuedMatchNoLink(rows: seq<Row>, keys: seq<string>, link: string, norm: string)
    requires |keys| == |rows| && QueuedMatchFrom(rows, keys, norm, 0).None?
    requires forall j :: 0 <= j < |rows| && rows[j].link == link ==> keys[j] == norm
    ensures forall j :: 0 <= j < |rows| ==> !(rows[j].link == link && rows[j].status == "queue")
  {
    forall j | 0 <= j < |rows| && rows[j].link == link
      ensures rows[j].status != "queue"
    {
      assert !IsQueuedMatch(rows, keys, norm, j);
    }
  }

  /* ------------------------------ the table ------------------------------ */

  class Table {
    var rows: seq<Row>
    var nextId: int

    /** Ids ascend with position and stay below the next id to hand out. */
    predicate Valid()
      reads this
    {
      IdsValid(rows, nextId)
    }

    constructor()
      ensures rows == [] && nextId == 1 && Valid()
    {
      rows := [];
      nextId := 1;
    }

    /** `insert_download`: appends the encoded row and returns its fresh id. */
    method InsertDownload(d: Download) returns (id: int)
      requires Valid()
      modifies this
      ensures Valid()
      ensures id == old(nextId) && nextId == old(nextId) + 1
      ensures rows == old(rows) + [EncodeDownload(d, id)]
    {
      id := nextId;
      AppendKeepsValid(rows, nextId, EncodeDownload(d, id));
      rows := rows + [EncodeDownload(d, id)];
      nextId := nextId + 1;
    }

    /** The id of the first row with exactly this link (the lookup `ensure_row_for_url` relies on). */
    method FindIdByLink(link: string) returns (id: Option<int>)
      ensures id.Some? ==> exists k ::
        && 0 <= k < |rows| && rows[k].link == link && rows[k].id == id.value
        && forall j :: 0 <= j < k ==> rows[j].link != link
      ensures id.None? ==> forall k :: 0 <= k < |rows| ==> rows[k].link != link
    {
      var i := 0;
      while i < |rows|
        invariant 0 <= i <= |rows|
        invariant forall k :: 0 <= k < i ==> rows[k].link != link
      {
        if rows[i].link == link {
          return Some(rows[i].id);
        }
        i := i + 1;
      }
      return None;
    }

    /**
     * `mark_link_done`: the first queued row (lowest id) whose normalized link
     * equals the normalized argument becomes done with the given path.
     */
    method MarkLinkDone(link: string, path: string) returns (n: nat)
      requires Valid()
      modifies this
      ensures Valid() && nextId == old(nextId)
      ensures match QueuedMatchFrom(old(rows), LinkKeys(old(rows)), NormalizedLink(link), 0)
        case Some(i) => n == 1 && rows == old(rows)[i := old(rows)[i].(status := "done", path := StoredPath(path))]
        case None => n == 0 && rows == old(rows)
    {
      var pathValue := StoredPath(path);
      var norm := NormalizeLink(link);
      var target := FindQueuedMatch(norm);
      if target.Some? {
        var t := target.value;
        var done := rows[t].(status := "done", path := pathValue);
        ReplaceKeepsValid(rows, nextId, t, done);
        rows := rows[t := done];
        n := 1;
      } else {
        n := 0;
      }
    }

    /** The scan of `mark_link_done`: queued rows in id order, stopping at the first normalized-link match. */
    method FindQueuedMatch(norm: string) returns (target: Option<nat>)
      ensures target == QueuedMatchFrom(rows, LinkKeys(rows), norm, 0)
      ensures target.Some? ==> target.value < |rows|
    {
      var keys := NormalizeLinks(rows);
      var i := 0;
      while i < |rows|
        invariant 0 <= i <= |rows|
        invariant QueuedMatchFrom(rows, keys, norm, 0) == QueuedMatchFrom(rows, keys, norm, i)
      {
        if rows[i].status == "queue" && keys[i] == norm {
          return Some(i);
        }
        i := i + 1;
      }
      return None;
    }

    /**
     * `toggle_output_format_for_link`: the first row with the link in queue,
     * backlog, other order (then by id) gets its format toggled; 0 when none has the link.
     */
    method ToggleOutputFormatForLink(link: string) returns (n: nat)
      requires Valid()
      modifies this
      ensures Valid() && nextId == old(nextId)
      ensures match PickForLink(old(rows), link)
        case Some(i) => n == 1 && rows == old(rows)[i := old(rows)[i].(outputFormat := ToggledFormat(old(rows)[i].outputFormat))]
        case None => n == 0 && rows == old(rows)
    {
      var rs := rows;
      var best: Option<nat> := None;
      var i := 0;
      while i < |rs|
        invariant 0 <= i <= |rs|
        invariant best == PickForLink(rs[..i], link)
        modifies {}
      {
        PickForLinkStep(rs, link, i);
        if rs[i].link == link {
          if best.None? || Rank(rs[i].status) < Rank(rs[best.value].status) {
            best := Some(i);
          }
        }
        i := i + 1;
      }
      assert rs[..|rs|] == rs;
      if best.Some? {
        var b := best.value;
        var toggled := rows[b].(outputFormat := ToggledFormat(rows[b].outputFormat));
        ReplaceKeepsValid(rows, nextId, b, toggled);
        rows := rows[b := toggled];
        n := 1;
      } else {
        n := 0;
      }
    }

    /** The shared `UPDATE downloads SET status=to WHERE <sel> AND status=from`. */
    method MoveWhere(sel: Selector, from: string, to: string) returns (n: nat)
      requires Valid()
      modifies this
      ensures Valid() && nextId == old(nextId)
      ensures rows == MoveRows(old(rows), sel, from, to)
      ensures n == CountMoved(old(rows), sel, from)
    {
      var out;
      out, n := UpdateRows(rows, sel, from, to);
      MoveKeepsValid(rows, nextId, sel, from, to);
      rows := out;
    }

    method MoveLinkToQueue(link: string) returns (n: nat)
      requires Valid()
      modifies this
      ensures Valid() && rows == MoveRows(old(rows), ByLink(link), "backlog", "queue")
      ensures n == CountMoved(old(rows), ByLink(link), "backlog")
    {
      n := MoveWhere(ByLink(link), "backlog", "queue");
    }

    method MoveCollectionToQueue(platform: string, handle: string, origin: string) returns (n: nat)
      requires Valid()
      modifies this
      ensures Valid() && rows == MoveRows(old(rows), ByCollection(platform, handle, origin), "backlog", "queue")
      ensures n == CountMoved(old(rows), ByCollection(platform, handle, origin), "backlog")
    {
      n := MoveWhere(ByCollection(platform, handle, origin), "backlog", "queue");
    }

    method MovePlatformToQueue(platform: string) returns (n: nat)
      requires Valid()
      modifies this
      ensures Valid() && rows == MoveRows(old(rows), ByPlatform(platform), "backlog", "queue")
      ensures n == CountMoved(old(rows), ByPlatform(platform), "backlog")
    {
      n := MoveWhere(ByPlatform(platform), "backlog", "queue");
    }

    method MoveLinkToBacklog(link: string) returns (n: nat)
      requires Valid()
      modifies this
      ensures Valid() && rows == MoveRows(old(rows), ByLink(link), "queue", "backlog")
      ensures n == CountMoved(old(rows), ByLink(link), "queue")
    {
      n := MoveWhere(ByLink(link), "queue", "backlog");
    }

    method MoveCollectionToBacklog(platform: string, handle: string, origin: string) returns (n: nat)
      requires Valid()
      modifies this
      ensures Valid() && rows == MoveRows(old(rows), ByCollection(platform, handle, origin), "queue", "backlog")
      ensures n == CountMoved(old(rows), ByCollection(platform, handle, origin), "queue")
    {
      n := MoveWhere(ByCollection(platform, handle, origin), "queue", "backlog");
    }

    method MovePlatformToBacklog(platform: string) returns (n: nat)
      requires Valid()
      modifies this
      ensures Valid() && rows == MoveRows(old(rows), ByPlatform(platform), "queue", "backlog")
      ensures n == CountMoved(old(rows), ByPlatform(platform), "queue")
    {
      n := MoveWhere(ByPlatform(platform), "queue", "backlog");
    }

    /** `list_backlog_ui`, `list_queue_ui` and `list_done_ui` (the SQL ordering is not modelled). */
    method ListUi(status: DownloadStatus) returns (out: seq<UiRow>)
      ensures out == UiRowsWithStatus(rows, StatusToken(status))
    {
      out := UiRowsWithStatus(rows, StatusToken(status));
    }
  }
}
