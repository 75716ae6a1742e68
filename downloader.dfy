/**
 * The manual download command (src-tauri/src/commands/downloader.rs): how its
 * arguments resolve, how the link is cleaned, the row it finds or creates, and
 * the platform and media guesses for a new row.
 */
module Downloader {
  import opened Common
  import opened Text
  import opened Database
  import opened Manager
  import opened Pipeline

  /* ------------------------------ arguments ------------------------------ */

  /**
   * `force_audio` of `download_url`: the snake_case format argument, else the
   * camelCase one, read case-insensitively as `audio` or `video`.
   */
  function ForceAudioArg(outputFormat: Option<string>, outputFormatCamel: Option<string>): (f: Option<bool>)
    ensures var chosen := outputFormat.Or(outputFormatCamel);
      && (f == Some(true) <==> chosen.Some? && ToLower(chosen.value) == "audio")
      && (f == Some(false) <==> chosen.Some? && ToLower(chosen.value) == "video")
  {
    match outputFormat.Or(outputFormatCamel)
    case Some(fmt) => FormatPreference(fmt)
    case None => None
  }

  /** A snake_case format argument decides alone; the camelCase one is then ignored. */
  lemma SnakeCaseFormatWins(fmt: string, camel: Option<string>, camel2: Option<string>)
    ensures ForceAudioArg(Some(fmt), camel) == ForceAudioArg(Some(fmt), camel2) == FormatPreference(fmt)
  {
  }

  /** `flat_destination.or(flatDestination).unwrap_or(false)`. */
  function FlatArg(flatDestination: Option<bool>, flatDestinationCamel: Option<bool>): (flat: bool)
    ensures flat ==> flatDestination == Some(true) || (flatDestination.None? && flatDestinationCamel == Some(true))
    ensures flatDestination == Some(true) || (flatDestination.None? && flatDestinationCamel == Some(true)) ==> flat
  {
    flatDestination.Or(flatDestinationCamel).GetOr(false)
  }

  /* ------------------------------ the link ------------------------------ */

  /** `sanitize_url`: trim, then remove the audio marker, then the flat marker. */
  function SanitizeUrl(raw: string): (r: string)
    ensures !Contains(Trim(raw), AudioMarker) && !Contains(Trim(raw), FlatMarker) ==> r == Trim(raw)
  {
    MarkerFreeKept(Trim(raw));
    Replace(Replace(Trim(raw), AudioMarker, []), FlatMarker, [])
  }

  /** Text holding neither marker passes both removals unchanged. */
  lemma MarkerFreeKept(t: string)
    ensures !Contains(t, AudioMarker) && !Contains(t, FlatMarker) ==>
      Replace(Replace(t, AudioMarker, []), FlatMarker, []) == t
  {
    if !Contains(t, AudioMarker) && !Contains(t, FlatMarker) {
      ReplaceAbsent(t, AudioMarker, []);
      ReplaceAbsent(t, FlatMarker, []);
    }
  }

  /** Sanitising a link cleans it exactly as the download job strips its legacy markers, after trimming. */
  lemma SanitizeIsStrip(raw: string)
    ensures SanitizeUrl(raw) == StripLegacyFlags(Trim(raw)).url
  {
    var t := Trim(raw);
    if !Contains(t, AudioMarker) {
      ReplaceAbsent(t, AudioMarker, []);
    }
    var a := Replace(t, AudioMarker, []);
    assert RemoveMarker(t, AudioMarker).0 == a;
    if !Contains(a, FlatMarker) {
      ReplaceAbsent(a, FlatMarker, []);
    }
  }

  /** No whitespace at either end, so `trim` leaves the text alone. */
  predicate Trimmed(s: string) {
    s == [] || (!IsSpace(s[0]) && !IsSpace(s[|s| - 1]))
  }

  /** A marker-free link without surrounding whitespace, with markers appended as the Home page does, sanitises back to itself. */
  lemma SanitizeRoundTrip(u: string, audio: bool, flat: bool)
    requires Trimmed(u) && !Contains(u, AudioMarker) && !Contains(u, FlatMarker)
    ensures SanitizeUrl(WithMarkers(u, audio, flat)) == u
  {
    MarkerEnds();
    var a := u + (if audio then AudioMarker else []);
    if audio {
      TrimmedAppend(u, AudioMarker);
    } else {
      assert a == u;
    }
    var w := a + (if flat then FlatMarker else []);
    if flat {
      TrimmedAppend(a, FlatMarker);
    } else {
      assert w == a;
    }
    assert w == WithMarkers(u, audio, flat);
    TrimNoSpace(w);
    SanitizeIsStrip(w);
    StripRoundTrip(u, audio, flat);
  }

  lemma MarkerEnds()
    ensures Trimmed(AudioMarker) && AudioMarker != []
    ensures Trimmed(FlatMarker) && FlatMarker != []
  {
  }

  /** Text without surrounding whitespace stays so when more such text is appended. */
  lemma TrimmedAppend(u: string, m: string)
    requires Trimmed(u) && Trimmed(m) && m != []
    ensures Trimmed(u + m)
  {
    var w := u + m;
    assert w[|w| - 1] == m[|m| - 1];
    if u == [] {
      assert w == m;
    } else {
      assert w[0] == u[0];
    }
  }

  /* ------------------------------ guesses for a new row ------------------------------ */

  /** `infer_platform`: instagram, then tiktok, then pinterest or pin.it, else YouTube. */
  function InferPlatform(url: string): (p: Platform)
    ensures p == Instagram <==> Contains(url, "instagram.com")
    ensures p == Tiktok <==> !Contains(url, "instagram.com") && Contains(url, "tiktok.com")
    ensures p == Pinterest <==> (
      !Contains(url, "instagram.com") && !Contains(url, "tiktok.com")
      && (Contains(url, "pinterest.com") || Contains(url, "pin.it")))
  {
    if Contains(url, "instagram.com") then Instagram
    else if Contains(url, "tiktok.com") then Tiktok
    else if Contains(url, "pinterest.com") || Contains(url, "pin.it") then Pinterest
    else Youtube
  }

  /** `infer_media`: an image exactly for photo links and Pinterest. */
  function InferMedia(url: string): (m: MediaKind)
    ensures m == Image <==> Contains(url, "/photo/") || Contains(url, "pinterest.com")
  {
    if Contains(url, "/photo/") || Contains(url, "pinterest.com") then Image else Video
  }

  /**
   * The platform of a new row agrees with the site folder the download job picks
   * for Instagram, TikTok and Pinterest; a row guessed as YouTube lands under
   * `youtube` or `other`.
   */
  lemma PlatformMatchesSite(url: string)
    ensures InferSite(url) == "instagram" <==> InferPlatform(url) == Instagram
    ensures InferSite(url) == "tiktok" <==> InferPlatform(url) == Tiktok
    ensures InferSite(url) == "pinterest" ==> InferPlatform(url) == Pinterest
    ensures InferPlatform(url) == Youtube ==> InferSite(url) == "youtube" || InferSite(url) == "other"
  {
  }

  /** The output format a new row stores for the forced audio preference. */
  function OutputFor(forceAudio: Option<bool>): (f: OutputFormat)
    ensures forceAudio == Some(true) <==> f == AudioFormat
    ensures forceAudio == Some(false) <==> f == VideoFormat
  {
    match forceAudio
    case Some(true) => AudioFormat
    case Some(false) => VideoFormat
    case None => DefaultFormat
  }

  /** The download `ensure_row_for_url` inserts for an unknown link. */
  function NewManualDownload(url: string, forceAudio: Option<bool>): Download {
    Download(InferPlatform(url), url, InferMedia(url), "Unknown", Manual, url, OutputFor(forceAudio), Queue, "unknown_path")
  }

  /**
   * The stored row of a new manual download reads back as a queued manual row
   * by an unknown user, with the inferred platform and media, and its format
   * column asks the download job for the same audio preference as the override.
   */
  lemma NewRowReadsBack(url: string, forceAudio: Option<bool>, id: int)
    ensures var r := EncodeDownload(NewManualDownload(url, forceAudio), id);
      && r.id == id && r.link == url && r.name == url && r.userHandle == "Unknown" && r.path == "unknown_path"
      && OriginFrom(r.origin) == Manual && StatusFrom(r.status) == Queue
      && PlatformFrom(r.platform) == InferPlatform(url) && MediaFrom(r.media) == InferMedia(url)
      && FormatPreference(r.outputFormat) == forceAudio
  {
    EncodeDecode(NewManualDownload(url, forceAudio), id);
    FormatTokenLower(OutputFor(forceAudio));
  }

  /* ------------------------------ the command ------------------------------ */

  /**
   * `ensure_row_for_url`: the id of a row that already has the link, inserting
   * nothing; otherwise the id of one new row.
   */
  method EnsureRowForUrl(db: Table, url: string, forceAudio: Option<bool>) returns (id: int, created: bool)
    requires db.Valid()
    modifies db
    ensures db.Valid()
    ensures !created <==> exists k :: 0 <= k < |old(db.rows)| && old(db.rows)[k].link == url
    ensures !created ==> (
      db.rows == old(db.rows) && db.nextId == old(db.nextId)
      && exists k :: 0 <= k < |db.rows| && db.rows[k].link == url && db.rows[k].id == id)
    ensures created ==> (
      id == old(db.nextId) && db.nextId == old(db.nextId) + 1
      && db.rows == old(db.rows) + [EncodeDownload(NewManualDownload(url, forceAudio), id)])
  {
    var found := db.FindIdByLink(url);
    if found.Some? {
      return found.value, false;
    }
    id := db.InsertDownload(NewManualDownload(url, forceAudio));
    created := true;
  }

  /**
   * `download_url`: resolves the arguments, finds or creates the row for the
   * sanitised link, and returns its id with the `StartNow` command it sends to
   * the download manager.
   */
  method DownloadUrl(db: Table, url: string, outputFormat: Option<string>, outputFormatCamel: Option<string>,
                     flatDestination: Option<bool>, flatDestinationCamel: Option<bool>) returns (rowId: int, cmd: Command)
    requires db.Valid()
    modifies db
    ensures db.Valid()
    ensures cmd == StartNow(rowId, Some(DownloadOverrides(ForceAudioArg(outputFormat, outputFormatCamel),
                                                          FlatArg(flatDestination, flatDestinationCamel))))
    ensures exists k :: 0 <= k < |db.rows| && db.rows[k].id == rowId && db.rows[k].link == SanitizeUrl(url)
    ensures old(db.rows) <= db.rows && |db.rows| <= |old(db.rows)| + 1
  {
    var forceAudio := ForceAudioArg(outputFormat, outputFormatCamel);
    var flat := FlatArg(flatDestination, flatDestinationCamel);
    var cleanedUrl := SanitizeUrl(url);
    var created;
    rowId, created := EnsureRowForUrl(db, cleanedUrl, forceAudio);
    if created {
      assert db.rows[|db.rows| - 1] == EncodeDownload(NewManualDownload(cleanedUrl, forceAudio), rowId);
    }
    cmd := StartNow(rowId, Some(DownloadOverrides(forceAudio, flat)));
  }
}
