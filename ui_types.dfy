/**
 * The front end's row types and their lowercase tokens (src/types.rs). The
 * tokens are the serde names the rows are exchanged under; deserialising a
 * content type falls back to `Other` for any token it does not know, while
 * a platform token must be one of the four.
 */
module UiTypes {
  import opened Common

  datatype Platform = Tiktok | Instagram | Youtube | Pinterest

  datatype ContentType =
    | Liked | Reposts | Profile | Bookmarks | Playlist | Recommendation
    | Manual | Pinboard | Other

  datatype MediaKind = Pictures | Video

  datatype DownloadStatus = Backlog | Queued | Downloading | Done | Error | Canceled

  /** `ClipRow`: one row as the pages show it. */
  datatype ClipRow = ClipRow(
    id: int, platform: Platform, contentType: ContentType, handle: string,
    media: MediaKind, link: string, name: string, outputFormat: Option<string>,
    status: DownloadStatus)

  /** `platform_str`. */
  function PlatformStr(p: Platform): string {
    match p
    case Tiktok => "tiktok"
    case Instagram => "instagram"
    case Youtube => "youtube"
    case Pinterest => "pinterest"
  }

  /** `content_type_str`. */
  function ContentTypeStr(t: ContentType): string {
    match t
    case Liked => "liked"
    case Reposts => "reposts"
    case Profile => "profile"
    case Bookmarks => "bookmarks"
    case Playlist => "playlist"
    case Recommendation => "recommendation"
    case Manual => "manual"
    case Pinboard => "pinboard"
    case Other => "other"
  }

  /** Deserialising a platform: the exact lowercase token, else a decode error. */
  function PlatformFromToken(s: string): Option<Platform> {
    if s == "tiktok" then Some(Tiktok)
    else if s == "instagram" then Some(Instagram)
    else if s == "youtube" then Some(Youtube)
    else if s == "pinterest" then Some(Pinterest)
    else None
  }

  /** Deserialising a content type: the exact lowercase token, else `Other`. */
  function ContentTypeFromToken(s: string): ContentType {
    if s == "liked" then Liked
    else if s == "reposts" then Reposts
    else if s == "profile" then Profile
    else if s == "bookmarks" then Bookmarks
    else if s == "playlist" then Playlist
    else if s == "recommendation" then Recommendation
    else if s == "manual" then Manual
    else if s == "pinboard" then Pinboard
    else Other
  }

  /** Every token is non-empty and made of lowercase ASCII letters only. */
  predicate LowerWord(s: string) {
    s != [] && forall k :: 0 <= k < |s| ==> 'a' <= s[k] <= 'z'
  }

  /** Platform tokens are distinct lowercase words, and reading one back gives the platform. */
  lemma PlatformStrRoundTrip(p: Platform)
    ensures LowerWord(PlatformStr(p))
    ensures PlatformFromToken(PlatformStr(p)) == Some(p)
  {
  }

  lemma PlatformStrInjective(p: Platform, q: Platform)
    requires PlatformStr(p) == PlatformStr(q)
    ensures p == q
  {
    PlatformStrRoundTrip(p);
    PlatformStrRoundTrip(q);
  }

  /** Content type tokens are lowercase words, and reading one back gives the content type. */
  lemma ContentTypeStrRoundTrip(t: ContentType)
    ensures LowerWord(ContentTypeStr(t))
    ensures ContentTypeFromToken(ContentTypeStr(t)) == t
  {
  }

  /** All nine content types have different tokens. */
  lemma ContentTypeStrInjective(t: ContentType, u: ContentType)
    requires ContentTypeStr(t) == ContentTypeStr(u)
    ensures t == u
  {
    ContentTypeStrRoundTrip(t);
    ContentTypeStrRoundTrip(u);
  }

  /** Token to content type to token: the known tokens come back unchanged, any other becomes `other`. */
  lemma ContentTypeTokenRoundTrip(s: string)
    ensures ContentTypeStr(ContentTypeFromToken(s)) == s || (ContentTypeFromToken(s) == Other && ContentTypeStr(Other) == "other")
    ensures ContentTypeStr(ContentTypeFromToken(s)) == s <==> s in {"liked", "reposts", "profile", "bookmarks", "playlist", "recommendation", "manual", "pinboard", "other"}
  {
  }

  /** Platform token to platform to token: exactly the four tokens survive the trip. */
  lemma PlatformTokenRoundTrip(s: string)
    ensures PlatformFromToken(s).Some? ==> PlatformStr(PlatformFromToken(s).value) == s
    ensures PlatformFromToken(s).Some? <==> s in {"tiktok", "instagram", "youtube", "pinterest"}
  {
  }

  /** Tokens are case-sensitive: the capitalised name is not a known token. */
  lemma CapitalisedIsOther()
    ensures ContentTypeFromToken("Liked") == Other
    ensures PlatformFromToken("Tiktok").None?
  {
  }
}
