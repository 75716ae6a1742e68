/**
 * The label and icon helpers of the downloads page (src/pages/downloads.rs):
 * the path after a link's host, the short item label built from path
 * segments, the collection title and the row icon. The library page
 * (src/pages/library.rs) repeats `url_after_domain`,
 * `last_two_path_segments` and `collection_title` verbatim and uses these
 * definitions.
 */
module Labels {
  import opened Common
  import opened Text
  import opened UiTypes

  /* ----------------------------- path helpers ----------------------------- */

  /** The text after the first `//`, up to the next `//` if any; the whole link when it has none. */
  function NoScheme(url: string): string {
    SecondPiece(url, "//").GetOr(url)
  }

  /** `url_after_domain`: what follows the first `/` after the scheme, or nothing. */
  function UrlAfterDomain(url: string): string {
    var rest := NoScheme(url);
    if '/' in rest then rest[IndexOfChar(rest, '/') + 1..] else []
  }

  /** The non-empty `/`-segments of the path after the host. */
  function PathSegments(url: string): seq<string> {
    Segments(UrlAfterDomain(url), '/')
  }

  /** `last_two_path_segments`. */
  function LastTwoPathSegments(url: string): string {
    var tail := UrlAfterDomain(url);
    var parts := Segments(tail, '/');
    if |parts| == 0 then tail
    else if |parts| == 1 then parts[0]
    else parts[|parts| - 2] + ['/'] + parts[|parts| - 1]
  }

  /** No two slashes in a row. */
  predicate NoDoubleSlash(s: string) {
    forall k :: 0 <= k < |s| - 1 ==> !(s[k] == '/' && s[k + 1] == '/')
  }

  lemma NoDoubleSlashNotContains(s: string)
    requires NoDoubleSlash(s)
    ensures !Contains(s, "//")
  {
    forall i: nat | i + 2 <= |s|
      ensures !OccursAt(s, "//", i)
    {
      assert s[i..i + 2][0] == s[i] && s[i..i + 2][1] == s[i + 1];
    }
  }

  /** `//` does not start at `i` when one of the two characters there is not a slash. */
  lemma NoDoubleSlashAt(s: string, i: nat)
    requires i + 1 < |s| ==> s[i] != '/' || s[i + 1] != '/'
    ensures !OccursAt(s, "//", i)
  {
    if i + 2 <= |s| {
      assert s[i..i + 2][0] == s[i] && s[i..i + 2][1] == s[i + 1];
    }
  }

  /** With no slash in the scheme, the first `//` is the one right after it. */
  lemma FindSchemeSeparator(scheme: string, rest: string)
    requires '/' !in scheme
    ensures Find(scheme + "//" + rest, "//") == Some(|scheme|)
    ensures (scheme + "//" + rest)[|scheme| + 2..] == rest
  {
    var url := scheme + "//" + rest;
    assert url[|scheme|..|scheme| + 2] == "//";
    forall j | 0 <= j < |scheme|
      ensures !OccursAt(url, "//", j)
    {
      assert url[j] == scheme[j];
      NoDoubleSlashAt(url, j);
    }
    FindIs(url, "//", |scheme|);
  }

  /** `host/path` has no doubled slash when the host has no slash and the path neither starts with one nor doubles one. */
  lemma HostPathSingleSlashes(host: string, path: string)
    requires '/' !in host
    requires path == [] || path[0] != '/'
    requires NoDoubleSlash(path)
    ensures NoDoubleSlash(host + "/" + path)
  {
    var rest := host + "/" + path;
    forall k | 0 <= k < |rest| - 1
      ensures !(rest[k] == '/' && rest[k + 1] == '/')
    {
      if k > |host| {
        assert rest[k] == path[k - |host| - 1] && rest[k + 1] == path[k - |host|];
      } else if k == |host| {
        assert rest[k + 1] == path[0];
      } else {
        assert rest[k] == host[k];
      }
    }
  }

  /**
   * For `scheme://host/path` whose path has no `//` and does not start with
   * a slash, the text after the domain is exactly the path.
   */
  lemma UrlAfterDomainOf(scheme: string, host: string, path: string)
    requires '/' !in scheme && '/' !in host
    requires path == [] || path[0] != '/'
    requires NoDoubleSlash(path)
    ensures UrlAfterDomain(scheme + "//" + (host + "/" + path)) == path
  {
    var rest := host + "/" + path;
    FindSchemeSeparator(scheme, rest);
    HostPathSingleSlashes(host, path);
    NoDoubleSlashNotContains(rest);
    assert NoScheme(scheme + "//" + rest) == rest;
    assert rest[..|host|] == host;
    IndexOfCharUnique(rest, '/', |host|);
    assert rest[|host| + 1..] == path;
  }

  /** A link with no `//` at all is read from its first slash on. */
  lemma UrlAfterDomainNoScheme(url: string)
    requires !Contains(url, "//")
    ensures NoScheme(url) == url
  {
  }

  /** Only the piece up to a second `//` is looked at: a doubled slash in the path cuts the tail. */
  lemma UrlAfterDomainStopsAtDoubleSlash()
    ensures UrlAfterDomain("a://h/x//y") == "x"
  {
    var url := "a://h/x//y";
    assert url[2..4] == "//";
    NoDoubleSlashAt(url, 0);
    NoDoubleSlashAt(url, 1);
    FindIs(url, "//", 2);
    var rest := url[4..];
    assert rest == "h/x//y";
    assert rest[3..5] == "//";
    NoDoubleSlashAt(rest, 0);
    NoDoubleSlashAt(rest, 1);
    NoDoubleSlashAt(rest, 2);
    FindIs(rest, "//", 3);
    assert NoScheme(url) == "h/x";
    assert "h/x"[..1] == "h";
    IndexOfCharUnique("h/x", '/', 1);
  }

  /** Segments carry no slash and are never empty. */
  lemma SegmentFacts(s: string)
    ensures forall k :: 0 <= k < |Segments(s, '/')| ==> Segments(s, '/')[k] != [] && '/' !in Segments(s, '/')[k]
  {
    var parts := Split(s, '/');
    forall k | 0 <= k < |Segments(s, '/')|
      ensures Segments(s, '/')[k] != [] && '/' !in Segments(s, '/')[k]
    {
      var x := Segments(s, '/')[k];
      assert x in parts;
      var j :| 0 <= j < |parts| && parts[j] == x;
    }
  }

  /** Two segments joined by a slash split back into those two segments. */
  lemma PairResplit(a: string, b: string)
    requires a != [] && '/' !in a && b != [] && '/' !in b
    ensures Segments(a + ['/'] + b, '/') == [a, b]
  {
    SegmentsAppend(a, '/', b);
    SegmentsSingle(a, '/');
    SegmentsSingle(b, '/');
  }

  /** `w` is a run of adjacent entries of `parts`. */
  ghost predicate Window(w: seq<string>, parts: seq<string>) {
    exists i: nat | i + |w| <= |parts| :: parts[i..][..|w|] == w
  }

  /**
   * Splitting the short label again gives back the last two path segments
   * (or the only one, or none): the label is those segments and nothing else.
   */
  lemma LastTwoResplit(url: string)
    ensures var parts := PathSegments(url);
      && var n := if |parts| < 2 then |parts| else 2;
      && Segments(LastTwoPathSegments(url), '/') == parts[|parts| - n..]
  {
    var parts := PathSegments(url);
    SegmentFacts(UrlAfterDomain(url));
    if |parts| == 1 {
      SegmentsSingle(parts[0], '/');
    } else if |parts| >= 2 {
      PairResplit(parts[|parts| - 2], parts[|parts| - 1]);
      assert parts[|parts| - 2..] == [parts[|parts| - 2], parts[|parts| - 1]];
    }
  }

  /* ------------------------------ item label ------------------------------ */

  /** The `k`-th segment, or the empty string when there are fewer (`unwrap_or_default`). */
  function Nth(parts: seq<string>, k: nat): string {
    if k < |parts| then parts[k] else []
  }

  /** The position of the first `photo` or `video` segment. */
  function MediaIndex(pieces: seq<string>): (r: Option<nat>)
    ensures r.Some? ==> r.value < |pieces| && (pieces[r.value] == "photo" || pieces[r.value] == "video")
    ensures r.Some? ==> forall k :: 0 <= k < r.value ==> pieces[k] != "photo" && pieces[k] != "video"
    ensures r.None? ==> forall k :: 0 <= k < |pieces| ==> pieces[k] != "photo" && pieces[k] != "video"
  {
    if pieces == [] then None
    else if pieces[0] == "photo" || pieces[0] == "video" then Some(0)
    else match MediaIndex(pieces[1..])
      case None => None
      case Some(i) => Some(i + 1)
  }

  /** The Instagram label: `kind/id` for a post or reel path, else the last two segments. */
  function InstagramLabel(link: string): string {
    var parts := PathSegments(link);
    var b := Nth(parts, 1);
    var c := Nth(parts, 2);
    if (b == "p" || b == "reel") && c != [] then b + ['/'] + c
    else LastTwoPathSegments(link)
  }

  /** The TikTok label: the first `photo`/`video` segment and the one after it, else the last two segments. */
  function TiktokLabel(link: string): string {
    var pieces := PathSegments(link);
    match MediaIndex(pieces)
    case Some(pos) =>
      if pos + 1 < |pieces| then pieces[pos] + ['/'] + pieces[pos + 1] else LastTwoPathSegments(link)
    case None => LastTwoPathSegments(link)
  }

  /** `item_label_for_row` of the downloads page, on the trimmed link. */
  function ItemLabelForRow(row: ClipRow): string {
    var link := Trim(row.link);
    if row.platform == Instagram then InstagramLabel(link)
    else if row.platform == Tiktok then TiktokLabel(link)
    else LastTwoPathSegments(link)
  }

  /** The fallback label is a window of the path segments of the right length. */
  lemma LastTwoIsWindow(link: string)
    ensures var parts := PathSegments(link);
      var w := Segments(LastTwoPathSegments(link), '/');
      Window(w, parts) && |w| == (if |parts| < 2 then |parts| else 2)
  {
    var parts := PathSegments(link);
    var n := if |parts| < 2 then |parts| else 2;
    LastTwoResplit(link);
    assert parts[|parts| - n..][..n] == parts[|parts| - n..];
  }

  lemma InstagramLabelIsWindow(link: string)
    ensures var parts := PathSegments(link);
      var w := Segments(InstagramLabel(link), '/');
      Window(w, parts) && |w| == (if |parts| < 2 then |parts| else 2)
  {
    var parts := PathSegments(link);
    var b := Nth(parts, 1);
    var c := Nth(parts, 2);
    if (b == "p" || b == "reel") && c != [] {
      SegmentFacts(UrlAfterDomain(link));
      PairResplit(b, c);
      assert parts[1..][..2] == [b, c];
    } else {
      LastTwoIsWindow(link);
    }
  }

  /** Two adjacent segments joined by a slash form a window of length two. */
  lemma AdjacentPairIsWindow(parts: seq<string>, pos: nat)
    requires pos + 1 < |parts|
    requires parts[pos] != [] && '/' !in parts[pos] && parts[pos + 1] != [] && '/' !in parts[pos + 1]
    ensures var w := Segments(parts[pos] + ['/'] + parts[pos + 1], '/');
      Window(w, parts) && |w| == 2
  {
    PairResplit(parts[pos], parts[pos + 1]);
    assert parts[pos..][..2] == [parts[pos], parts[pos + 1]];
  }

  lemma TiktokLabelCases(link: string)
    ensures var parts := PathSegments(link);
      var m := MediaIndex(parts);
      if m.Some? && m.value + 1 < |parts| then TiktokLabel(link) == parts[m.value] + ['/'] + parts[m.value + 1]
      else TiktokLabel(link) == LastTwoPathSegments(link)
  {
  }

  lemma TiktokLabelIsWindow(link: string)
    ensures var parts := PathSegments(link);
      var w := Segments(TiktokLabel(link), '/');
      Window(w, parts) && |w| == (if |parts| < 2 then |parts| else 2)
  {
    var parts := PathSegments(link);
    var m := MediaIndex(parts);
    TiktokLabelCases(link);
    if m.Some? && m.value + 1 < |parts| {
      SegmentFacts(UrlAfterDomain(link));
      AdjacentPairIsWindow(parts, m.value);
    } else {
      LastTwoIsWindow(link);
    }
  }

  /**
   * Whatever the platform, the label splits back into adjacent path segments
   * of the link: two of them whenever the path has at least two.
   */
  lemma ItemLabelIsWindow(row: ClipRow)
    ensures var parts := PathSegments(Trim(row.link));
      var w := Segments(ItemLabelForRow(row), '/');
      Window(w, parts) && |w| == (if |parts| < 2 then |parts| else 2)
  {
    var link := Trim(row.link);
    if row.platform == Instagram {
      InstagramLabelIsWindow(link);
    } else if row.platform == Tiktok {
      TiktokLabelIsWindow(link);
    } else {
      LastTwoIsWindow(link);
    }
  }

  /** `https://host/user/kind/id`. */
  function PostLink(host: string, user: string, kind: string, id: string): string {
    "https:" + "//" + (host + "/" + (user + ['/'] + (kind + ['/'] + id)))
  }

  /** The path of a post link has no doubled slash. */
  lemma PostPathSingleSlashes(user: string, kind: string, id: string)
    requires user != [] && '/' !in user && kind != [] && '/' !in kind && id != [] && '/' !in id
    ensures NoDoubleSlash(user + ['/'] + (kind + ['/'] + id))
  {
    var tail := kind + ['/'] + id;
    var path := user + ['/'] + tail;
    forall k | 0 <= k < |path| - 1
      ensures !(path[k] == '/' && path[k + 1] == '/')
    {
      if k < |user| {
        assert path[k] == user[k];
      } else if k == |user| {
        assert path[k + 1] == kind[0];
      } else {
        var j := k - |user| - 1;
        assert path[k] == tail[j] && path[k + 1] == tail[j + 1];
        if j < |kind| {
          assert tail[j] == kind[j];
        } else {
          assert tail[j + 1] == id[j - |kind|];
        }
      }
    }
  }

  /** The path segments of a post link are the user, the kind and the id. */
  lemma PostLinkSegments(host: string, user: string, kind: string, id: string)
    requires '/' !in host
    requires user != [] && '/' !in user && kind != [] && '/' !in kind && id != [] && '/' !in id
    ensures PathSegments(PostLink(host, user, kind, id)) == [user, kind, id]
  {
    PostPathSingleSlashes(user, kind, id);
    UrlAfterDomainOf("https:", host, user + ['/'] + (kind + ['/'] + id));
    SegmentsAppend(user, '/', kind + ['/'] + id);
    PairResplit(kind, id);
    SegmentsSingle(user, '/');
  }

  /** A post link starts with `h` and ends with the id, so trimming leaves it as it is. */
  lemma PostLinkTrimmed(host: string, user: string, kind: string, id: string)
    requires id != [] && !IsSpace(id[|id| - 1])
    ensures Trim(PostLink(host, user, kind, id)) == PostLink(host, user, kind, id)
  {
    var link := PostLink(host, user, kind, id);
    assert link[0] == 'h' && link[|link| - 1] == id[|id| - 1];
    TrimNoSpace(link);
  }

  lemma PostKindHasNoSlash(kind: string)
    requires kind == "p" || kind == "reel"
    ensures kind != [] && '/' !in kind
  {
    assert kind[0] != '/';
  }

  /**
   * The Instagram label of a post or reel link is `<kind>/<id>`; such a link
   * is also its own trimmed form (`PostLinkTrimmed`), which is what the row
   * label is computed on.
   */
  lemma InstagramLabelOfPost(host: string, user: string, kind: string, id: string)
    requires kind == "p" || kind == "reel"
    requires '/' !in host && user != [] && '/' !in user && id != [] && '/' !in id
    ensures InstagramLabel(PostLink(host, user, kind, id)) == kind + "/" + id
  {
    PostKindHasNoSlash(kind);
    PostLinkSegments(host, user, kind, id);
  }

  /* ------------------------------ collection ------------------------------ */

  /** The handle shown for a row: `Unknown` when it is blank. */
  function ShownHandle(handle: string): (h: string)
    ensures Trim(handle) == [] ==> h == "Unknown"
    ensures Trim(handle) != [] ==> h == handle
  {
    if Trim(handle) == [] then "Unknown" else handle
  }

  /** `collection_title`: `"<handle> | <type>"`. */
  function CollectionTitle(row: ClipRow): string {
    ShownHandle(row.handle) + " | " + ContentTypeStr(row.contentType)
  }

  /** No content type token contains a bar or a space. */
  lemma TokenHasNoBar(t: ContentType)
    ensures '|' !in ContentTypeStr(t)
  {
    ContentTypeStrRoundTrip(t);
    var typ := ContentTypeStr(t);
    assert forall k :: 0 <= k < |typ| ==> typ[k] != '|';
  }

  lemma BarSplit(h: string, typ: string)
    ensures h + " | " + typ == (h + " ") + ['|'] + (" " + typ)
  {
  }

  /** The title can be read back: the handle shown before the last ` | `, the content type after it. */
  lemma CollectionTitleReadBack(row: ClipRow)
    ensures var t := CollectionTitle(row);
      && AfterLast(t, '|') == " " + ContentTypeStr(row.contentType)
      && t[..|ShownHandle(row.handle)|] == ShownHandle(row.handle)
  {
    var h := ShownHandle(row.handle);
    var typ := ContentTypeStr(row.contentType);
    TokenHasNoBar(row.contentType);
    BarSplit(h, typ);
    AfterLastOf(h + " ", '|', " " + typ);
  }

  /** Two rows with the same collection title have the same content type. */
  lemma CollectionTitleType(r1: ClipRow, r2: ClipRow)
    requires CollectionTitle(r1) == CollectionTitle(r2)
    ensures r1.contentType == r2.contentType
  {
    CollectionTitleReadBack(r1);
    CollectionTitleReadBack(r2);
    var t1 := ContentTypeStr(r1.contentType);
    var t2 := ContentTypeStr(r2.contentType);
    assert (" " + t1)[1..] == t1 && (" " + t2)[1..] == t2;
    ContentTypeStrInjective(r1.contentType, r2.contentType);
  }

  /* --------------------------------- icons -------------------------------- */

  datatype Icon = ImageIcon | VideoIcon | MusicIcon

  /** `is_instagram_photo`: the second path segment is `p`. */
  predicate IsInstagramPhoto(link: string) {
    Nth(PathSegments(link), 1) == "p"
  }

  /** `is_tiktok_photo`: some path segment is `photo`. */
  predicate IsTiktokPhoto(link: string) {
    "photo" in PathSegments(link)
  }

  /** `icon_for_row`. */
  function IconForRow(row: ClipRow): Icon {
    var link := Trim(row.link);
    if row.platform == Pinterest then ImageIcon
    else if (row.platform == Instagram && IsInstagramPhoto(link)) || (row.platform == Tiktok && IsTiktokPhoto(link)) then ImageIcon
    else match row.media
      case Pictures => ImageIcon
      case Video => VideoIcon
  }

  /** A row shows the video icon exactly when it is a video row that no link rule turns into an image. */
  lemma IconRules(row: ClipRow)
    ensures IconForRow(row) != MusicIcon
    ensures IconForRow(row) == VideoIcon <==>
      && row.media == Video
      && row.platform != Pinterest
      && !(row.platform == Instagram && IsInstagramPhoto(Trim(row.link)))
      && !(row.platform == Tiktok && IsTiktokPhoto(Trim(row.link)))
  {
  }

  /** `toggle_icon_for_row`: music for an `audio` output format in any letter case, else the row icon. */
  function ToggleIconForRow(row: ClipRow): (icon: Icon)
    ensures icon == MusicIcon <==> row.outputFormat.Some? && ToLower(row.outputFormat.value) == "audio"
  {
    IconRules(row);
    match row.outputFormat
    case Some(fmt) => if ToLower(fmt) == "audio" then MusicIcon else IconForRow(row)
    case None => IconForRow(row)
  }
}
