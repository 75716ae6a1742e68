/**
 * Recovering ids, handles and file names from platform links and from the
 * text the external downloaders print (src-tauri/src/commands/parse.rs).
 */
module Parse {
  import opened Common
  import opened Text

  const IgMarker: string := "instagram.com/"
  const VideoKey: string := "/video/"
  const PhotoKey: string := "/photo/"
  const ShortsKey: string := "/shorts/"

  /** The characters that end an id taken from a link path. */
  const IdStops: set<char> := {'/', '?', '&'}

  /* ------------------------------ Instagram ------------------------------ */

  /** The `/`-separated parts after `instagram.com/`, outer slashes removed. */
  function IgPathParts(url: string): (r: Option<seq<string>>)
    ensures r.Some? <==> Contains(url, IgMarker)
  {
    match Find(url, IgMarker)
    case None => None
    case Some(pos) => Some(Split(TrimChars(url[pos + |IgMarker|..], {'/'}), '/'))
  }

  /**
   * The (handle, id) of an Instagram `/<handle>/reel/<id>` or `/<handle>/p/<id>`
   * link; both absent for any other link.
   */
  function IgHandleAndId(url: string): (r: (Option<string>, Option<string>))
    ensures r.0.Some? <==> r.1.Some?
    ensures r.0.Some? ==> Contains(url, IgMarker) && '/' !in r.0.value && '/' !in r.1.value
  {
    match IgPathParts(url)
    case None => (None, None)
    case Some(parts) =>
      if |parts| >= 3 && (parts[1] == "reel" || parts[1] == "p") then (Some(parts[0]), Some(parts[2]))
      else (None, None)
  }

  /** A handle and an id come exactly from a post path, as its first and third parts. */
  lemma IgHandleAndIdExactly(url: string)
    ensures IgHandleAndId(url).0.Some? <==>
      && IgPathParts(url).Some?
      && |IgPathParts(url).value| >= 3
      && (IgPathParts(url).value[1] == "reel" || IgPathParts(url).value[1] == "p")
    ensures IgHandleAndId(url).0.Some? ==>
      IgHandleAndId(url) == (Some(IgPathParts(url).value[0]), Some(IgPathParts(url).value[2]))
  {
  }

  /** A handle read from a link is never empty: the outer slashes are trimmed before splitting. */
  lemma IgHandleNonEmpty(url: string)
    ensures IgHandleAndId(url).0.Some? ==> IgHandleAndId(url).0.value != []
  {
    IgHandleAndIdExactly(url);
    if IgHandleAndId(url).0.Some? {
      var pos := Find(url, IgMarker).value;
      var s := TrimChars(url[pos + |IgMarker|..], {'/'});
      assert IgPathParts(url).value == Split(s, '/');
      SlashTrimmedHead(url[pos + |IgMarker|..]);
      FirstPartNonEmpty(s);
    }
  }

  /** Trimming slashes leaves a text that is empty or does not start with one. */
  lemma SlashTrimmedHead(x: string)
    ensures TrimChars(x, {'/'}) == [] || TrimChars(x, {'/'})[0] != '/'
  {
    var y := TrimStartChars(x, {'/'});
    if TrimChars(x, {'/'}) != [] {
      assert TrimChars(x, {'/'})[0] == y[0];
    }
  }

  /** The first of several `/`-separated parts of a text that does not start with `/` is not empty. */
  lemma FirstPartNonEmpty(s: string)
    requires s == [] || s[0] != '/'
    ensures |Split(s, '/')| >= 2 ==> Split(s, '/')[0] != []
  {
    if '/' !in s {
      SplitNoSep(s, '/');
    } else {
      var i := IndexOfChar(s, '/');
      assert s == s[..i] + s[i..];
      SplitFirst(s[..i], '/', s[i..]);
    }
  }

  /** A link built from a handle, a post kind and an id yields that handle and id back. */
  lemma IgHandleAndIdOf(prefix: string, handle: string, kind: string, id: string, rest: string)
    requires Find(prefix + IgMarker, IgMarker) == Some(|prefix|)
    requires handle != [] && '/' !in handle && '/' !in id && id != []
    requires kind == "reel" || kind == "p"
    requires rest == [] || rest[0] == '/'
    ensures IgHandleAndId(prefix + IgMarker + handle + "/" + kind + "/" + id + rest) == (Some(handle), Some(id))
  {
    var tail := handle + "/" + kind + "/" + id;
    var url := prefix + IgMarker + handle + "/" + kind + "/" + id + rest;
    assert url == prefix + IgMarker + (tail + rest);
    IgPathPartsOf(prefix, tail + rest);
    assert tail[0] == handle[0] && tail[|tail| - 1] == id[|id| - 1];
    TrimSlashesOf(tail, rest);
    var kept := TrimEndChars(rest, {'/'});
    PostKindPlain(kind);
    SplitThree(handle, kind, id, kept);
    var parts := Split(tail + kept, '/');
    assert IgPathParts(url) == Some(parts);
    IgHandleAndIdExactly(url);
  }

  lemma PostKindPlain(kind: string)
    requires kind == "reel" || kind == "p"
    ensures '/' !in kind
  {
    assert kind[0] != '/';
  }

  /** The parts are read from the text after the first `instagram.com/`. */
  lemma IgPathPartsOf(prefix: string, after: string)
    requires Find(prefix + IgMarker, IgMarker) == Some(|prefix|)
    ensures IgPathParts(prefix + IgMarker + after) == Some(Split(TrimChars(after, {'/'}), '/'))
  {
    FindAppend(prefix + IgMarker, after, IgMarker, |prefix|);
    assert (prefix + IgMarker + after)[|prefix| + |IgMarker|..] == after;
  }

  /** Trimming slashes off `tail + rest` keeps `tail` when it neither starts nor ends with one. */
  lemma TrimSlashesOf(tail: string, rest: string)
    requires tail != [] && tail[0] != '/' && tail[|tail| - 1] != '/'
    requires rest == [] || rest[0] == '/'
    ensures TrimChars(tail + rest, {'/'}) == tail + TrimEndChars(rest, {'/'})
    ensures TrimEndChars(rest, {'/'}) == [] || TrimEndChars(rest, {'/'})[0] == '/'
  {
    assert TrimStartChars(tail + rest, {'/'}) == tail + rest;
    TrimEndCharsAppend(tail, rest, {'/'});
  }

  /** The first three pieces of `a/b/c...`. */
  lemma SplitThree(a: string, b: string, c: string, kept: string)
    requires '/' !in a && '/' !in b && '/' !in c
    requires kept == [] || kept[0] == '/'
    ensures |Split(a + "/" + b + "/" + c + kept, '/')| >= 3
    ensures Split(a + "/" + b + "/" + c + kept, '/')[0] == a
    ensures Split(a + "/" + b + "/" + c + kept, '/')[1] == b
    ensures Split(a + "/" + b + "/" + c + kept, '/')[2] == c
  {
    assert a + "/" + b + "/" + c + kept == a + ['/'] + (b + ['/'] + (c + kept));
    SplitHeads(a, b, c, kept, '/');
  }

  /** The same with any separator. */
  lemma SplitHeads(a: string, b: string, c: string, kept: string, sep: char)
    requires sep !in a && sep !in b && sep !in c
    requires kept == [] || kept[0] == sep
    ensures |Split(a + [sep] + (b + [sep] + (c + kept)), sep)| >= 3
    ensures Split(a + [sep] + (b + [sep] + (c + kept)), sep)[0] == a
    ensures Split(a + [sep] + (b + [sep] + (c + kept)), sep)[1] == b
    ensures Split(a + [sep] + (b + [sep] + (c + kept)), sep)[2] == c
  {
    SplitCons(a, sep, b + [sep] + (c + kept));
    SplitCons(b, sep, c + kept);
    SplitFirst(c, sep, kept);
  }

  /* ------------------------------ TikTok and YouTube ------------------------------ */

  /** The non-empty id following the first occurrence of `key`, cut at `/`, `?` or `&`. */
  function IdAfter(url: string, key: string): (r: Option<string>)
    ensures r.Some? ==> Contains(url, key) && r.value != []
    ensures r.Some? ==> forall k :: 0 <= k < |r.value| ==> r.value[k] !in IdStops
  {
    match Find(url, key)
    case None => None
    case Some(i) =>
      var id := TakeUntil(url[i + |key|..], IdStops);
      if id == [] then None else Some(id)
  }

  lemma IdAfterOf(prefix: string, key: string, id: string, rest: string)
    requires Find(prefix + key, key) == Some(|prefix|)
    requires id != [] && forall k :: 0 <= k < |id| ==> id[k] !in IdStops
    requires rest == [] || rest[0] in IdStops
    ensures IdAfter(prefix + key + id + rest, key) == Some(id)
  {
    var url := prefix + key + id + rest;
    assert url == (prefix + key) + (id + rest);
    FindAppend(prefix + key, id + rest, key, |prefix|);
    assert url[|prefix| + |key|..] == id + rest;
    TakeUntilWhole(id, rest, IdStops);
  }

  /** The TikTok post id: after `/video/` if that yields one, else after `/photo/`. */
  function TikTokIdFromUrl(url: string): (r: Option<string>)
    ensures r.Some? ==> r.value != [] && forall k :: 0 <= k < |r.value| ==> r.value[k] !in IdStops
    ensures r.Some? ==> Contains(url, VideoKey) || Contains(url, PhotoKey)
  {
    match IdAfter(url, VideoKey)
    case Some(id) => Some(id)
    case None => IdAfter(url, PhotoKey)
  }

  /** A `/video/<id>` link yields its id. */
  lemma TikTokVideoId(prefix: string, id: string, rest: string)
    requires Find(prefix + VideoKey, VideoKey) == Some(|prefix|)
    requires id != [] && forall k :: 0 <= k < |id| ==> id[k] !in IdStops
    requires rest == [] || rest[0] in IdStops
    ensures TikTokIdFromUrl(prefix + VideoKey + id + rest) == Some(id)
  {
    IdAfterOf(prefix, VideoKey, id, rest);
  }

  /** A `/photo/<id>` link without a `/video/` part yields its id. */
  lemma TikTokPhotoId(prefix: string, id: string, rest: string)
    requires Find(prefix + PhotoKey, PhotoKey) == Some(|prefix|)
    requires !Contains(prefix + PhotoKey + id + rest, VideoKey)
    requires id != [] && forall k :: 0 <= k < |id| ==> id[k] !in IdStops
    requires rest == [] || rest[0] in IdStops
    ensures TikTokIdFromUrl(prefix + PhotoKey + id + rest) == Some(id)
  {
    IdAfterOf(prefix, PhotoKey, id, rest);
  }

  /** The value of the first `v=` pair with a non-empty value. */
  function VParam(pairs: seq<string>): (r: Option<string>)
    ensures r.Some? ==> r.value != [] && exists k :: 0 <= k < |pairs| && pairs[k] == "v=" + r.value
  {
    if pairs == [] then None
    else
      match SplitOnce(pairs[0], '=')
      case Some(kv) =>
        if kv.0 == "v" && kv.1 != [] then Some(kv.1) else VParam(pairs[1..])
      case None => VParam(pairs[1..])
  }

  /** The `v` parameter of the query string, when there is one. */
  function QueryVideoId(url: string): Option<string> {
    if '?' in url then VParam(Split(url[IndexOfChar(url, '?') + 1..], '&')) else None
  }

  /** The YouTube video id: the `v` query parameter first, else the part after `/shorts/`. */
  function YoutubeIdFromUrl(url: string): (r: Option<string>)
    ensures r.Some? ==> r.value != []
    ensures r.Some? && '?' !in url ==> Contains(url, ShortsKey)
  {
    match QueryVideoId(url)
    case Some(v) => Some(v)
    case None => IdAfter(url, ShortsKey)
  }

  /** A watch link yields its `v` parameter, whatever the path holds (even `/shorts/`). */
  lemma YoutubeWatchId(base: string, id: string, rest: string)
    requires '?' !in base
    requires id != [] && '&' !in id
    requires rest == [] || rest[0] == '&'
    ensures YoutubeIdFromUrl(base + "?v=" + id + rest) == Some(id)
  {
    assert base + "?v=" + id + rest == base + "?" + ("v=" + id + rest);
    QueryOf(base, "v=" + id + rest);
    VParamFirst(id, rest);
  }

  /** The query string starts after the first `?`. */
  lemma QueryOf(base: string, query: string)
    requires '?' !in base
    ensures QueryVideoId(base + "?" + query) == VParam(Split(query, '&'))
  {
    var url := base + "?" + query;
    assert url[|base|] == '?';
    assert url[..|base|] == base;
    IndexOfCharUnique(url, '?', |base|);
    assert url[|base| + 1..] == query;
  }

  /** A leading `v=<id>` pair gives the id. */
  lemma VParamFirst(id: string, rest: string)
    requires id != [] && '&' !in id
    requires rest == [] || rest[0] == '&'
    ensures VParam(Split("v=" + id + rest, '&')) == Some(id)
  {
    var first := "v=" + id;
    assert first == "v" + ['='] + id;
    assert '&' !in first by {
      assert forall k :: 2 <= k < |first| ==> first[k] == id[k - 2];
    }
    assert "v=" + id + rest == first + rest;
    SplitFirst(first, '&', rest);
    SplitOnceOf("v", '=', id);
    var pairs := Split(first + rest, '&');
    assert pairs != [] && pairs[0] == first;
    assert SplitOnce(pairs[0], '=') == Some(("v", id));
  }

  /** A shorts link without a query string yields the id after `/shorts/`. */
  lemma YoutubeShortsId(prefix: string, id: string, rest: string)
    requires Find(prefix + ShortsKey, ShortsKey) == Some(|prefix|)
    requires '?' !in prefix + ShortsKey + id + rest
    requires id != [] && forall k :: 0 <= k < |id| ==> id[k] !in IdStops
    requires rest == [] || rest[0] in IdStops
    ensures YoutubeIdFromUrl(prefix + ShortsKey + id + rest) == Some(id)
  {
    IdAfterOf(prefix, ShortsKey, id, rest);
  }

  /* ------------------------------ last path segment ------------------------------ */

  /** The last path segment, without the query and trailing slashes; absent when empty. */
  function LastSegment(url: string): (r: Option<string>)
    ensures r.Some? ==> r.value != [] && '/' !in r.value && '?' !in r.value
  {
    var noQuery := TakeUntil(url, {'?'});
    var base := TrimEndChars(noQuery, {'/'});
    var seg := AfterLast(base, '/');
    NoStopInSlice(noQuery, '?', |base| - |seg|, |base|);
    assert seg == noQuery[|base| - |seg|..|base|];
    if seg == [] then None else Some(seg)
  }

  lemma NoStopInSlice(s: string, c: char, i: nat, j: nat)
    requires i <= j <= |s|
    requires forall k :: 0 <= k < |s| ==> s[k] != c
    ensures c !in s[i..j]
  {
    assert forall k :: 0 <= k < j - i ==> s[i..j][k] == s[i + k];
  }

  /** `.../<seg>///?query` yields `seg`. */
  lemma LastSegmentOf(base: string, seg: string, slashes: string, query: string)
    requires '?' !in base
    requires seg != [] && '/' !in seg && '?' !in seg
    requires forall k :: 0 <= k < |slashes| ==> slashes[k] == '/'
    requires query == [] || query[0] == '?'
    ensures LastSegment(base + "/" + seg + slashes + query) == Some(seg)
  {
    var head := base + "/" + seg;
    var url := head + slashes + query;
    assert forall k :: 0 <= k < |head + slashes| ==> (head + slashes)[k] != '?';
    TakeUntilWhole(head + slashes, query, {'?'});
    TrimEndCharsAppend(head, slashes, {'/'});
    TrimEndCharsAll(slashes, {'/'});
    assert head + [] == head;
    AfterLastOf(base, '/', seg);
  }

  /* ------------------------------ file paths ------------------------------ */

  /** Path components with empty and `.` components removed, as `std::path` normalises them. */
  function Components(p: string): (r: seq<string>)
    ensures forall k :: 0 <= k < |r| ==> r[k] != [] && r[k] != "." && '/' !in r[k]
  {
    DropDots(Segments(p, '/'))
  }

  function DropDots(xs: seq<string>): (r: seq<string>)
    ensures forall k :: 0 <= k < |r| ==> r[k] != "." && r[k] in xs
  {
    if xs == [] then []
    else if xs[0] == "." then DropDots(xs[1..])
    else [xs[0]] + DropDots(xs[1..])
  }

  /** The component `back` places from the end (0: the file name), unless it is `..`. */
  function NameFromEnd(p: string, back: nat): (r: Option<string>)
    ensures r.Some? ==> r.value != [] && r.value != ".." && '/' !in r.value
  {
    var c := Components(p);
    if back < |c| && c[|c| - 1 - back] != ".." then Some(c[|c| - 1 - back]) else None
  }

  /** `Path::file_name`. */
  function FileName(p: string): Option<string> {
    NameFromEnd(p, 0)
  }

  /** `Path::file_stem`: the name before its last `.`, unless that would leave nothing. */
  function FileStem(p: string): (r: Option<string>)
    ensures r.Some? <==> FileName(p).Some?
    ensures r.Some? ==> r.value != [] && r.value <= FileName(p).value
  {
    match FileName(p)
    case None => None
    case Some(n) =>
      match RSplitOnce(n, '.')
      case None => Some(n)
      case Some(parts) => if parts.0 == [] then Some(n) else Some(parts.0)
  }

  /** The folder names an output path cannot take a handle from. */
  predicate IsPlatformFolder(n: string) {
    n == "instagram" || n == "tiktok" || n == "youtube"
  }

  /** The handle read from the folders: the parent, or the grandparent when the parent is a platform folder. */
  function FolderHandle(p: string): (r: Option<string>)
    ensures r.Some? ==> !IsPlatformFolder(r.value) && r.value != []
  {
    match NameFromEnd(p, 1)
    case None => None
    case Some(parent) =>
      if !IsPlatformFolder(parent) then Some(parent)
      else
        match NameFromEnd(p, 2)
        case Some(grand) => if !IsPlatformFolder(grand) then Some(grand) else None
        case None => None
  }

  /** A component that `Components` keeps as it is. */
  predicate PlainName(n: string) {
    n != [] && n != "." && n != ".." && '/' !in n
  }

  lemma {:induction false} DropDotsAppend(a: seq<string>, b: seq<string>)
    ensures DropDots(a + b) == DropDots(a) + DropDots(b)
  {
    if a == [] {
      assert a + b == b;
    } else {
      assert (a + b)[1..] == a[1..] + b;
      DropDotsAppend(a[1..], b);
    }
  }

  /** In `dir/a/b/f` the file is `f`, its parent `b` and its grandparent `a`. */
  lemma NamesOfPath(dir: string, a: string, b: string, f: string)
    requires PlainName(a) && PlainName(b) && PlainName(f)
    ensures FileName(dir + "/" + a + "/" + b + "/" + f) == Some(f)
    ensures NameFromEnd(dir + "/" + a + "/" + b + "/" + f, 1) == Some(b)
    ensures NameFromEnd(dir + "/" + a + "/" + b + "/" + f, 2) == Some(a)
  {
    var p := dir + "/" + a + "/" + b + "/" + f;
    ComponentsOfPath(dir, a, b, f);
    var c := Components(p);
    var d := DropDots(Segments(dir, '/'));
    assert c == d + [a, b, f];
    assert c[|c| - 1] == f && c[|c| - 2] == b && c[|c| - 3] == a;
  }

  lemma ComponentsOfPath(dir: string, a: string, b: string, f: string)
    requires PlainName(a) && PlainName(b) && PlainName(f)
    ensures Components(dir + "/" + a + "/" + b + "/" + f) == DropDots(Segments(dir, '/')) + [a, b, f]
  {
    SegmentsOfPath(dir, a, b, f);
    DropDotsAppend(Segments(dir, '/'), [a, b, f]);
    DropDotsPlain([a, b, f]);
  }

  lemma SegmentsOfPath(dir: string, a: string, b: string, f: string)
    requires PlainName(a) && PlainName(b) && PlainName(f)
    ensures Segments(dir + "/" + a + "/" + b + "/" + f, '/') == Segments(dir, '/') + [a, b, f]
  {
    assert dir + "/" + a + "/" + b + "/" + f == dir + ['/'] + (a + ['/'] + (b + ['/'] + f));
    SegmentsAppend(dir, '/', a + ['/'] + (b + ['/'] + f));
    SegmentsOfTail(a, b, f);
  }

  lemma SegmentsOfTail(a: string, b: string, f: string)
    requires PlainName(a) && PlainName(b) && PlainName(f)
    ensures Segments(a + ['/'] + (b + ['/'] + f), '/') == [a, b, f]
  {
    SegmentsAppend(a, '/', b + ['/'] + f);
    SegmentsAppend(b, '/', f);
    SegmentsSingle(a, '/');
    SegmentsSingle(b, '/');
    SegmentsSingle(f, '/');
  }

  lemma {:induction false} DropDotsPlain(xs: seq<string>)
    requires forall k :: 0 <= k < |xs| ==> PlainName(xs[k])
    ensures DropDots(xs) == xs
  {
    if xs != [] {
      DropDotsPlain(xs[1..]);
    }
  }

  /**
   * For a file stored as `dir/a/b/f` the folder handle is `b`, or `a` when `b`
   * is a platform folder, and none when both are.
   */
  lemma FolderHandleOfPath(dir: string, a: string, b: string, f: string)
    requires PlainName(a) && PlainName(b) && PlainName(f)
    ensures FolderHandle(dir + "/" + a + "/" + b + "/" + f)
      == (if !IsPlatformFolder(b) then Some(b) else if !IsPlatformFolder(a) then Some(a) else None)
  {
    NamesOfPath(dir, a, b, f);
  }

  /* ------------------------------ file names ------------------------------ */

  /** The title in an `uploader - title [id]` stem; the whole stem when it has no `[`. */
  function TitleFromStem(stem: string): (r: string)
    ensures '[' !in stem ==> r == stem
    ensures '[' in stem ==> '[' !in r
  {
    if '[' in stem then
      var head := stem[..IndexOfChar(stem, '[')];
      var before := Trim(head);
      TrimNotIn(head, '[');
      match Find(before, " - ")
      case Some(d) =>
        NoStopInSlice(before, '[', d + 3, |before|);
        TrimNotIn(before[d + 3..], '[');
        Trim(before[d + 3..])
      case None => before
    else stem
  }

  /** The stem that yt-dlp's `uploader - title [id]` template produces gives back its title. */
  lemma TitleFromStemOf(uploader: string, title: string, id: string)
    requires '[' !in uploader && '-' !in uploader && '[' !in title
    requires uploader != [] && !IsSpace(uploader[0])
    requires title != [] && !IsSpace(title[0]) && !IsSpace(title[|title| - 1])
    ensures TitleFromStem(uploader + " - " + title + " [" + id + "]") == title
  {
    var stem := uploader + " - " + title + " [" + id + "]";
    var before := uploader + " - " + title;
    StemHeadOf(uploader, title, id);
    TrimmedHeadOf(uploader, title);
    FindDashSeparator(uploader, title);
    assert before[|uploader| + 3..] == title;
    TrimNoSpace(title);
  }

  /** The part before the `[` of such a stem. */
  lemma StemHeadOf(uploader: string, title: string, id: string)
    requires '[' !in uploader && '[' !in title
    ensures var stem := uploader + " - " + title + " [" + id + "]";
      '[' in stem && stem[..IndexOfChar(stem, '[')] == uploader + " - " + title + " "
  {
    var stem := uploader + " - " + title + " [" + id + "]";
    var head := uploader + " - " + title + " ";
    assert stem == head + "[" + id + "]";
    assert stem[|head|] == '[';
    assert stem[..|head|] == head;
    IndexOfCharUnique(stem, '[', |head|);
  }

  lemma TrimmedHeadOf(uploader: string, title: string)
    requires uploader != [] && !IsSpace(uploader[0])
    requires title != [] && !IsSpace(title[|title| - 1])
    ensures Trim(uploader + " - " + title + " ") == uploader + " - " + title
  {
    var head := uploader + " - " + title + " ";
    var before := uploader + " - " + title;
    TrimStartNoSpace(head);
    assert head[|head| - 1] == ' ';
    assert head[..|head| - 1] == before;
    assert before[|before| - 1] == title[|title| - 1];
    TrimEndNoSpace(before);
  }

  /* ------------------------------ downloader output ------------------------------ */

  const DestinationTag: string := "Destination: "
  const MergingTag: string := "Merging formats into"
  const DownloadTag: string := "[download] "
  const AlreadyTag: string := " has already been downloaded"
  const SkippingTag: string := "[download] Skipping"
  const ArchiveTag: string := "has already been recorded in the archive"

  /** The lines of a text, without their `\n` terminators (`str::lines`). */
  function Lines(s: string): (r: seq<string>)
    ensures forall k :: 0 <= k < |r| ==> '\n' !in r[k]
  {
    var parts := Split(s, '\n');
    if parts[|parts| - 1] == [] then parts[..|parts| - 1] else parts
  }

  /** The merge target: the text between the first two quotes, else what follows `into`. */
  function MergeTarget(t: string): Option<string> {
    if '"' in t && '"' in t[IndexOfChar(t, '"') + 1..] then
      var rest := t[IndexOfChar(t, '"') + 1..];
      Some(rest[..IndexOfChar(rest, '"')])
    else
      match SecondPiece(t, "into")
      case Some(after) => Some(TrimChars(after, {'"', ' '}))
      case None => None
  }

  /** An absolute Unix or Windows path, or a path under the output folder hint. */
  predicate LooksLikePath(t: string, hint: string) {
    (t != [] && t[0] == '/')
    || (|t| > 2 && t[1] == ':' && (t[2] == '\\' || t[2] == '/'))
    || (hint != [] && hint <= t)
  }

  /** The file path one trimmed output line reports, tried in the order the downloaders' formats are checked. */
  function CandidateFromLine(t: string, hint: string): Option<string> {
    if |t| > 2 && t[0] == '#' then Some(Trim(t[2..]))
    else if Contains(t, DestinationTag) then Some(Trim(t[Find(t, DestinationTag).value + |DestinationTag|..]))
    else if Contains(t, MergingTag) && MergeTarget(t).Some? then MergeTarget(t)
    else if LooksLikePath(t, hint) && '.' in t then Some(t)
    else if DownloadTag <= t && Contains(t, AlreadyTag) then
      var name := Trim(Before(TrimStartMatches(t, DownloadTag), AlreadyTag));
      if name != [] && hint != [] then Some(hint + "/" + name) else None
    else if SkippingTag <= t && Contains(t, ArchiveTag) then
      match StripPrefix(t, SkippingTag + " ")
      case Some(after) =>
        var name := Trim(Before(after, ":"));
        if name != [] && hint != [] then Some(hint + "/" + name) else None
      case None => None
    else None
  }

  /** A gallery-dl `# <path>` line reports the path. */
  lemma GalleryLine(path: string, hint: string)
    requires path != []
    ensures CandidateFromLine("# " + path, hint) == Some(Trim(path))
  {
    assert ("# " + path)[2..] == path;
  }

  /** A yt-dlp `[download] Destination: <path>` line reports the path. */
  lemma DestinationLine(path: string, hint: string)
    ensures CandidateFromLine(DownloadTag + DestinationTag + path, hint) == Some(Trim(path))
  {
    var t := DownloadTag + DestinationTag + path;
    assert t == (DownloadTag + DestinationTag) + path;
    assert OccursAt(DownloadTag + DestinationTag, DestinationTag, |DownloadTag|);
    forall j | 0 <= j < |DownloadTag|
      ensures !OccursAt(DownloadTag + DestinationTag, DestinationTag, j)
    {
      var t0 := DownloadTag + DestinationTag;
      assert t0[j] == DownloadTag[j] && DownloadTag[j] != 'D';
    }
    FindIs(DownloadTag + DestinationTag, DestinationTag, |DownloadTag|);
    FindAppend(DownloadTag + DestinationTag, path, DestinationTag, |DownloadTag|);
    assert t[|DownloadTag| + |DestinationTag|..] == path;
  }

  /** The merge line yt-dlp prints: `[Merger] Merging formats into "<path>"`. */
  const MergerPrefix: string := "[Merger] " + MergingTag + " \""

  /** A quoted merge target is reported verbatim, without trimming. */
  lemma MergingLine(path: string, hint: string)
    requires '"' !in path && !Contains(path, DestinationTag)
    ensures CandidateFromLine(MergerPrefix + path + "\"", hint) == Some(path)
  {
    var t := MergerPrefix + path + "\"";
    MergeLineNoDestination(path);
    assert t[9..9 + |MergingTag|] == MergingTag;
    ContainsAt(t, MergingTag, 9);
    MergeTargetQuoted(path);
  }

  /** The quoted path of a merge line is its merge target. */
  lemma MergeTargetQuoted(path: string)
    requires '"' !in path
    ensures MergeTarget(MergerPrefix + path + "\"") == Some(path)
  {
    var t := MergerPrefix + path + "\"";
    var n := |MergerPrefix|;
    assert t[..n - 1] == MergerPrefix[..n - 1] && '"' !in MergerPrefix[..n - 1];
    assert t[n - 1] == '"';
    IndexOfCharUnique(t, '"', n - 1);
    var rest := t[n..];
    assert rest == path + "\"";
    assert rest[..|path|] == path;
    IndexOfCharUnique(rest, '"', |path|);
  }

  /** A merge line contains `Destination: ` only if its path does. */
  lemma MergeLineNoDestination(path: string)
    requires '"' !in path && !Contains(path, DestinationTag)
    ensures !Contains(MergerPrefix + path + "\"", DestinationTag)
  {
    NotContainsBefore(MergerPrefix, path, "\"", DestinationTag);
  }

  /** An already-downloaded line starts `[d`, carries its tag, and loses exactly `[download] ` to `trim_start_matches`. */
  lemma AlreadyLineShape(name: string)
    requires name != [] && name[0] != '['
    ensures var t := DownloadTag + name + AlreadyTag;
      && t[0] == '[' && t[1] == 'd' && DownloadTag <= t && Contains(t, AlreadyTag)
      && TrimStartMatches(t, DownloadTag) == name + AlreadyTag
  {
    var t := DownloadTag + name + AlreadyTag;
    var u := name + AlreadyTag;
    assert t[..|DownloadTag|] == DownloadTag && t[|DownloadTag|..] == u;
    assert u[0] == name[0];
    assert t[|DownloadTag| + |name|..] == AlreadyTag;
    ContainsAt(t, AlreadyTag, |DownloadTag| + |name|);
  }

  /** `Destination: ` starts with a character of neither frame of an already-downloaded line and has no `h`. */
  lemma DestinationOutsideAlreadyFrame()
    ensures DestinationTag != [] && |AlreadyTag| >= 2 && AlreadyTag[0] == ' '
    ensures forall k :: 0 <= k < |DownloadTag| ==> DownloadTag[k] != DestinationTag[0]
    ensures forall k :: 0 <= k < |AlreadyTag| ==> AlreadyTag[k] != DestinationTag[0]
    ensures forall k :: 0 <= k < |DestinationTag| ==> DestinationTag[k] != AlreadyTag[1]
  {
  }

  /** The same holds for `Merging formats into`. */
  lemma MergingOutsideAlreadyFrame()
    ensures MergingTag != [] && |AlreadyTag| >= 2 && AlreadyTag[0] == ' '
    ensures forall k :: 0 <= k < |DownloadTag| ==> DownloadTag[k] != MergingTag[0]
    ensures forall k :: 0 <= k < |AlreadyTag| ==> AlreadyTag[k] != MergingTag[0]
    ensures forall k :: 0 <= k < |MergingTag| ==> MergingTag[k] != AlreadyTag[1]
  {
  }

  /** An already-downloaded line holds `Destination: ` or `Merging formats into` only where its name and the space after it do. */
  lemma AlreadyLineNoEarlierTag(name: string)
    requires !Contains(name + " ", DestinationTag) && !Contains(name + " ", MergingTag)
    ensures !Contains(DownloadTag + name + AlreadyTag, DestinationTag)
    ensures !Contains(DownloadTag + name + AlreadyTag, MergingTag)
  {
    DestinationOutsideAlreadyFrame();
    NotContainsBetween(DownloadTag, name, AlreadyTag, DestinationTag);
    MergingOutsideAlreadyFrame();
    NotContainsBetween(DownloadTag, name, AlreadyTag, MergingTag);
  }

  /** The name before ` has already been downloaded` is the whole name when it holds no copy of that tag. */
  lemma BeforeAlready(name: string)
    requires !Contains(name, AlreadyTag)
    ensures Before(name + AlreadyTag, AlreadyTag) == name
  {
    AlreadyTagUnbordered();
    FindAppended(name, AlreadyTag);
  }

  /** No proper suffix of ` has already been downloaded` can start another copy of it. */
  lemma AlreadyTagUnbordered()
    ensures |AlreadyTag| >= 2 && AlreadyTag[|AlreadyTag| - 1] != AlreadyTag[0]
    ensures forall k :: 2 <= k < |AlreadyTag| ==> AlreadyTag[k] != AlreadyTag[1]
  {
  }

  /** A printed absolute Unix path with a `.` is reported as it is. */
  lemma AbsolutePathLine(path: string, hint: string)
    requires path != [] && path[0] == '/' && '.' in path
    requires !Contains(path, DestinationTag) && !Contains(path, MergingTag)
    ensures CandidateFromLine(path, hint) == Some(path)
  {
  }

  /** An already-downloaded line that none of the earlier forms matches reports its name under the hint. */
  lemma AlreadyBranch(t: string, name: string, hint: string)
    requires t != [] && t[0] != '#' && !LooksLikePath(t, hint)
    requires !Contains(t, DestinationTag) && !Contains(t, MergingTag)
    requires DownloadTag <= t && Contains(t, AlreadyTag)
    requires Before(TrimStartMatches(t, DownloadTag), AlreadyTag) == name
    ensures CandidateFromLine(t, hint)
      == if Trim(name) == [] || hint == [] then None else Some(hint + "/" + Trim(name))
  {
  }

  /**
   * `[download] <name> has already been downloaded` reports the trimmed name under the
   * output folder hint, and nothing without a hint.
   */
  lemma AlreadyDownloadedLine(name: string, hint: string)
    requires Trim(name) != [] && name[0] != '['
    requires hint == [] || hint[0] != '['
    requires !Contains(name + " ", DestinationTag) && !Contains(name + " ", MergingTag)
    requires !Contains(name, AlreadyTag)
    ensures CandidateFromLine(DownloadTag + name + AlreadyTag, hint)
      == if hint == [] then None else Some(hint + "/" + Trim(name))
  {
    var t := DownloadTag + name + AlreadyTag;
    AlreadyLineShape(name);
    AlreadyLineNoEarlierTag(name);
    BeforeAlready(name);
    AlreadyBranch(t, name, hint);
  }

  /** The paths reported by the lines, in order. */
  function Candidates(lines: seq<string>, hint: string): seq<string> {
    if lines == [] then []
    else
      var init := Candidates(lines[..|lines| - 1], hint);
      match CandidateFromLine(Trim(lines[|lines| - 1]), hint)
      case Some(p) => init + [p]
      case None => init
  }

  predicate Distinct(xs: seq<string>) {
    forall i, j :: 0 <= i < j < |xs| ==> xs[i] != xs[j]
  }

  /** The position of the first occurrence of `x`. */
  function FirstIndex(xs: seq<string>, x: string): (i: nat)
    requires x in xs
    ensures i < |xs| && xs[i] == x && x !in xs[..i]
  {
    if xs[0] == x then 0
    else
      var j := FirstIndex(xs[1..], x);
      assert xs[..j + 1] == [xs[0]] + xs[1..][..j];
      j + 1
  }

  /** Each value once, at the place it first appears. */
  function Dedup(xs: seq<string>): (r: seq<string>)
    ensures forall x :: x in r <==> x in xs
    ensures Distinct(r)
  {
    if xs == [] then []
    else
      var init := xs[..|xs| - 1];
      var last := xs[|xs| - 1];
      assert xs == init + [last];
      var d := Dedup(init);
      if last in d then d else d + [last]
  }

  lemma FirstIndexAppend(xs: seq<string>, y: string, x: string)
    requires x in xs
    ensures FirstIndex(xs + [y], x) == FirstIndex(xs, x)
  {
    var i := FirstIndex(xs, x);
    var ys := xs + [y];
    assert ys[..i] == xs[..i];
    assert ys[i] == x;
    FirstIndexUnique(ys, x, i);
  }

  lemma FirstIndexUnique(xs: seq<string>, x: string, i: nat)
    requires i < |xs| && xs[i] == x && x !in xs[..i]
    ensures FirstIndex(xs, x) == i
  {
    var j := FirstIndex(xs, x);
    assert forall k :: 0 <= k < i ==> xs[k] != x by {
      forall k | 0 <= k < i ensures xs[k] != x { assert xs[k] == xs[..i][k]; }
    }
    assert forall k :: 0 <= k < j ==> xs[k] != x by {
      forall k | 0 <= k < j ensures xs[k] != x { assert xs[k] == xs[..j][k]; }
    }
  }

  /** `Dedup` lists values in the order of their first appearance. */
  lemma {:induction false} DedupFirstOrder(xs: seq<string>)
    ensures forall i, j :: 0 <= i < j < |Dedup(xs)| ==> FirstIndex(xs, Dedup(xs)[i]) < FirstIndex(xs, Dedup(xs)[j])
  {
    if xs != [] {
      var init := xs[..|xs| - 1];
      var last := xs[|xs| - 1];
      assert xs == init + [last];
      DedupFirstOrder(init);
      var d := Dedup(init);
      forall x | x in d
        ensures FirstIndex(xs, x) == FirstIndex(init, x)
      {
        FirstIndexAppend(init, last, x);
      }
      if last !in d {
        assert last !in init;
        assert xs[..|init|] == init;
        FirstIndexUnique(xs, last, |init|);
        assert Dedup(xs) == d + [last];
        forall i | 0 <= i < |d|
          ensures FirstIndex(xs, d[i]) < |init|
        {
          FirstIndexAppend(init, last, d[i]);
        }
      }
    }
  }

  /** One downloaded file: who posted it, its display name and where it lies. */
  datatype FileEntry = FileEntry(userHandle: string, cleanName: string, fullPath: string)

  /** The entry for one reported path. */
  function EntryFor(full: string, url: string): (e: FileEntry)
    ensures e.fullPath == full
    ensures e.userHandle != []
    ensures IsPlatformFolder(e.userHandle) ==> IgHandleAndId(url).0 == Some(e.userHandle)
    ensures IgHandleAndId(url).1.Some? ==> e.cleanName == IgHandleAndId(url).1.value
    ensures IgHandleAndId(url).1.None? && FileStem(full).Some? && '[' !in FileStem(full).value
      ==> e.cleanName == FileStem(full).value
  {
    var clean := match FileStem(full)
      case Some(stem) => TitleFromStem(stem)
      case None => FileName(full).GetOr("");
    var ig := IgHandleAndId(url);
    var name := if Contains(url, IgMarker) && ig.1.Some? then ig.1.value else clean;
    FileEntry(HandleFor(full, url), name, full)
  }

  /** The uploader of one reported path: the link's handle, else the nearest non-platform folder, else `Unknown`. */
  function HandleFor(full: string, url: string): (h: string)
    ensures h != []
    ensures IsPlatformFolder(h) ==> IgHandleAndId(url).0 == Some(h)
  {
    var ig := IgHandleAndId(url);
    var fromUrl := if Contains(url, IgMarker) && ig.0.Some? then ig.0.value else "Unknown";
    IgHandleNonEmpty(url);
    if fromUrl == "Unknown" then FolderHandle(full).GetOr("Unknown") else fromUrl
  }

  /** The single entry reported when the output names no file. */
  function Fallback(url: string): (e: FileEntry)
    ensures e.fullPath == []
    ensures IgHandleAndId(url).1.Some? ==> e == FileEntry(IgHandleAndId(url).0.value, IgHandleAndId(url).1.value, [])
    ensures IgHandleAndId(url).1.None? ==> e == FileEntry("Unknown", "Unknown", [])
  {
    var ig := IgHandleAndId(url);
    FileEntry(ig.0.GetOr("Unknown"), if Contains(url, IgMarker) then ig.1.GetOr("Unknown") else "Unknown", [])
  }

  /** One entry per path, in order. */
  function EntriesFor(paths: seq<string>, url: string): (r: seq<FileEntry>)
    ensures |r| == |paths|
    ensures forall k :: 0 <= k < |r| ==> r[k] == EntryFor(paths[k], url)
  {
    Map(paths, p => EntryFor(p, url))
  }

  /** What the downloaders' output says was produced: one entry per distinct reported path, or the fallback entry. */
  function FilesFromOutput(output: string, url: string, hint: Option<string>): (r: seq<FileEntry>)
    ensures |r| >= 1
    ensures forall i, j :: 0 <= i < j < |r| ==> r[i].fullPath != r[j].fullPath
    ensures forall k :: 0 <= k < |r| ==>
      r[k].fullPath in Candidates(Lines(output), hint.GetOr("")) || r == [Fallback(url)]
    ensures Dedup(Candidates(Lines(output), hint.GetOr(""))) == [] ==> r == [Fallback(url)]
    ensures Dedup(Candidates(Lines(output), hint.GetOr(""))) != [] ==>
      && |r| == |Dedup(Candidates(Lines(output), hint.GetOr("")))|
      && forall k :: 0 <= k < |r| ==> r[k] == EntryFor(Dedup(Candidates(Lines(output), hint.GetOr("")))[k], url)
    ensures IgHandleAndId(url).1.Some? ==> forall k :: 0 <= k < |r| ==> r[k].cleanName == IgHandleAndId(url).1.value
  {
    var unique := Dedup(Candidates(Lines(output), hint.GetOr("")));
    if unique == [] then [Fallback(url)] else EntriesFor(unique, url)
  }

  /**
   * `parse_multiple_filenames_from_output`: collects the reported paths line by line,
   * drops repeats keeping first appearances, and builds one entry per path.
   */
  method ParseMultipleFilenamesFromOutput(output: string, url: string, hint: Option<string>)
    returns (results: seq<FileEntry>)
    ensures results == FilesFromOutput(output, url, hint)
  {
    var candidatePaths := CollectCandidates(Lines(output), hint.GetOr(""));
    var uniquePaths := DedupPaths(candidatePaths);
    results := BuildEntries(uniquePaths, url);
    if results == [] {
      results := [Fallback(url)];
    }
  }

  /** The line loop: one candidate path per recognised line. */
  method CollectCandidates(lines: seq<string>, hint: string) returns (candidatePaths: seq<string>)
    ensures candidatePaths == Candidates(lines, hint)
  {
    candidatePaths := [];
    var i := 0;
    while i < |lines|
      invariant 0 <= i <= |lines|
      invariant candidatePaths == Candidates(lines[..i], hint)
    {
      var c := CandidateFromLine(Trim(lines[i]), hint);
      CandidatesStep(lines, hint, i);
      if c.Some? {
        candidatePaths := candidatePaths + [c.value];
      }
      i := i + 1;
    }
    assert lines[..|lines|] == lines;
  }

  /** One more line adds its candidate, if it has one, at the end. */
  lemma CandidatesStep(lines: seq<string>, hint: string, i: nat)
    requires i < |lines|
    ensures CandidateFromLine(Trim(lines[i]), hint).Some? ==>
      Candidates(lines[..i + 1], hint) == Candidates(lines[..i], hint) + [CandidateFromLine(Trim(lines[i]), hint).value]
    ensures CandidateFromLine(Trim(lines[i]), hint).None? ==> Candidates(lines[..i + 1], hint) == Candidates(lines[..i], hint)
  {
    assert lines[..i + 1][..i] == lines[..i];
  }

  /** The de-duplication loop, with a set of the paths already kept. */
  method DedupPaths(candidatePaths: seq<string>) returns (uniquePaths: seq<string>)
    ensures uniquePaths == Dedup(candidatePaths)
  {
    var seen: set<string> := {};
    uniquePaths := [];
    var j := 0;
    while j < |candidatePaths|
      invariant 0 <= j <= |candidatePaths|
      invariant uniquePaths == Dedup(candidatePaths[..j])
      invariant forall x :: x in seen <==> x in uniquePaths
    {
      assert candidatePaths[..j + 1][..j] == candidatePaths[..j];
      var p := candidatePaths[j];
      if p !in seen {
        seen := seen + {p};
        uniquePaths := uniquePaths + [p];
      }
      j := j + 1;
    }
    assert candidatePaths[..|candidatePaths|] == candidatePaths;
  }

  /** The loop building one entry per kept path. */
  method BuildEntries(paths: seq<string>, url: string) returns (results: seq<FileEntry>)
    ensures results == EntriesFor(paths, url)
  {
    results := [];
    var k := 0;
    ghost var entry := p => EntryFor(p, url);
    while k < |paths|
      invariant 0 <= k <= |paths|
      invariant results == Map(paths[..k], entry)
    {
      MapSnoc(paths[..k + 1], entry);
      assert paths[..k + 1][..k] == paths[..k];
      results := results + [EntryFor(paths[k], url)];
      k := k + 1;
    }
    assert paths[..k] == paths;
  }
}
