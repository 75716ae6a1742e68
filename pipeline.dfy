/**
 * The download pipeline's pure and local decisions (src-tauri/src/download/pipeline.rs):
 * the duplicate-name policy over a destination folder, the legacy URL markers,
 * the site folder, and how a job's audio preference and destination are resolved.
 */
module Pipeline {
  import opened Common
  import opened Text
  import opened Database
  import opened Settings
  import opened Manager

  /* ------------------------------ file names ------------------------------ */

  /** `Path::join` of a relative component onto a directory. */
  function JoinPath(dir: string, name: string): string {
    dir + "/" + name
  }

  /**
   * The stem and extension of a file name: the split at the last `.` when both
   * sides are non-empty, else the whole name and `bin`.
   */
  function SplitName(fileName: string): (r: (string, string))
    ensures r.1 != [] && '.' !in r.1
    ensures r.0 + "." + r.1 == fileName || r == (fileName, "bin")
    ensures '.' !in fileName ==> r == (fileName, "bin")
    ensures r.0 == [] ==> r == (fileName, "bin")
  {
    match RSplitOnce(fileName, '.')
    case Some((s, e)) => if s != [] && e != [] then (s, e) else (fileName, "bin")
    case None => (fileName, "bin")
  }

  /** A name with a non-empty stem and a dot-free non-empty extension splits back into them. */
  lemma SplitNameOf(stem: string, ext: string)
    requires stem != [] && ext != [] && '.' !in ext
    ensures SplitName(stem + "." + ext) == (stem, ext)
  {
    var f := stem + "." + ext;
    assert f == stem + ['.'] + ext;
    RSplitOnceOf(stem, '.', ext);
  }

  /** `rsplit_once` finds the separator right before a separator-free tail. */
  lemma RSplitOnceOf(a: string, c: char, b: string)
    requires c !in b
    ensures RSplitOnce(a + [c] + b, c) == Some((a, b))
  {
    var s := a + [c] + b;
    assert s[|a|] == c;
    assert forall k :: |a| < k < |s| ==> s[k] == b[k - |a| - 1];
    assert s[..|a|] == a;
    assert s[|a| + 1..] == b;
  }

  /** Decimal digits of `n`, as `format!("{n}")` writes them. */
  function NatToString(n: nat): (s: string)
    ensures s != []
    ensures |s| == 1 <==> n < 10
    decreases n
  {
    if n < 10 then [DigitChar(n)] else NatToString(n / 10) + [DigitChar(n % 10)]
  }

  function DigitChar(d: nat): char
    requires d < 10
  {
    ('0' as int + d) as char
  }

  /** Different numbers are written differently. */
  lemma {:induction false} NatToStringInjective(a: nat, b: nat)
    requires NatToString(a) == NatToString(b)
    ensures a == b
    decreases a
  {
    var s := NatToString(a);
    assert DigitChar(a % 10) == s[|s| - 1] == DigitChar(b % 10);
    if |s| != 1 {
      assert NatToString(a / 10) == s[..|s| - 1] == NatToString(b / 10);
      NatToStringInjective(a / 10, b / 10);
    }
  }

  /** `stem (n).ext`, the n-th alternative name under CreateNew. */
  function Candidate(destDir: string, stem: string, ext: string, n: nat): string {
    JoinPath(destDir, stem + " (" + NatToString(n) + ")." + ext)
  }

  /** Different numbers give different candidate paths. */
  lemma CandidateInjective(destDir: string, stem: string, ext: string, a: nat, b: nat)
    requires Candidate(destDir, stem, ext, a) == Candidate(destDir, stem, ext, b)
    ensures a == b
  {
    var front := destDir + "/" + stem + " (";
    var x := NatToString(a);
    var y := NatToString(b);
    assert Candidate(destDir, stem, ext, a) == front + x + (")." + ext);
    assert Candidate(destDir, stem, ext, b) == front + y + (")." + ext);
    assert |x| == |y|;
    assert x == Candidate(destDir, stem, ext, a)[|front|..|front| + |x|];
    assert y == Candidate(destDir, stem, ext, b)[|front|..|front| + |y|];
    NatToStringInjective(a, b);
  }

  /** The candidates numbered 1 to n - 1. */
  function CandidatesBelow(destDir: string, stem: string, ext: string, n: nat): set<string> {
    set k | 1 <= k < n :: Candidate(destDir, stem, ext, k)
  }

  /** Each occupied candidate the search passes leaves one fewer unexamined existing file. */
  lemma CandidateStep(files: set<string>, destDir: string, stem: string, ext: string, n: nat)
    requires n >= 1 && Candidate(destDir, stem, ext, n) in files
    ensures |files - CandidatesBelow(destDir, stem, ext, n + 1)| < |files - CandidatesBelow(destDir, stem, ext, n)|
  {
    var c := Candidate(destDir, stem, ext, n);
    var before := CandidatesBelow(destDir, stem, ext, n);
    var after := CandidatesBelow(destDir, stem, ext, n + 1);
    assert c !in before by {
      if c in before {
        var k :| 1 <= k < n && Candidate(destDir, stem, ext, k) == c;
        CandidateInjective(destDir, stem, ext, k, n);
      }
    }
    assert after == before + {c};
    assert files - after == (files - before) - {c};
    assert c in files - before;
  }

  /**
   * The CreateNew search: the smallest n >= 1 for which `stem (n).ext` is free
   * in the destination folder.
   */
  method FreeCandidate(files: set<string>, destDir: string, stem: string, ext: string) returns (target: string, n: nat)
    ensures n >= 1 && target == Candidate(destDir, stem, ext, n)
    ensures target !in files
    ensures forall k :: 1 <= k < n ==> Candidate(destDir, stem, ext, k) in files
  {
    n := 1;
    while Candidate(destDir, stem, ext, n) in files
      invariant n >= 1
      invariant forall k :: 1 <= k < n ==> Candidate(destDir, stem, ext, k) in files
      decreases |files - CandidatesBelow(destDir, stem, ext, n)|
    {
      CandidateStep(files, destDir, stem, ext, n);
      n := n + 1;
    }
    target := Candidate(destDir, stem, ext, n);
  }

  /** What a move reports: the final path (none when skipped) and the action word. */
  type MoveOutcome = Result<(Option<string>, string), string>

  /** The one I/O failure modelled: copying from a source that is not there. */
  const SourceMissing: string := "source file not found"

  /**
   * A destination folder tree as the set of paths of the files in it. Directory
   * creation always succeeds and is not modelled.
   */
  class Folder {
    var files: set<string>

    constructor(existing: set<string>)
      ensures files == existing
    {
      files := existing;
    }

    /** `fs::copy(src, target)` followed by `fs::remove_file(src)`. */
    method CopyThenRemove(src: string, target: string) returns (ok: bool)
      modifies this
      ensures ok <==> src in old(files)
      ensures ok ==> files == (old(files) + {target}) - {src}
      ensures !ok ==> files == old(files)
    {
      if src !in files {
        return false;
      }
      files := files + {target};
      files := files - {src};
      return true;
    }

    /**
     * `move_with_policy`: move `src` into `destDir` under the name `fileName`,
     * resolving a clash by the duplicate policy.
     */
    method MoveWithPolicy(src: string, destDir: string, fileName: string, policy: OnDuplicate) returns (r: MoveOutcome)
      modifies this
      ensures var (stem, ext) := SplitName(fileName);
        var plain := JoinPath(destDir, stem + "." + ext);
        match policy
        case Overwrite =>
          if src in old(files) && src != plain then
            r == Ok((Some(plain), "Overwrote")) && files == (old(files) + {plain}) - {src}
          else
            r == Err(SourceMissing) && files == old(files) - {plain}
        case DoNothing =>
          if plain in old(files) then
            r == Ok((None, "Skipped")) && files == old(files) - {src}
          else if src in old(files) then
            r == Ok((Some(plain), "Created new")) && files == (old(files) + {plain}) - {src}
          else
            r == Err(SourceMissing) && files == old(files)
        case CreateNew =>
          if src in old(files) then
            r.Ok? && r.value.0.Some? && r.value.1 == "Created new"
            && r.value.0.value !in old(files)
            && files == (old(files) + {r.value.0.value}) - {src}
            && (plain !in old(files) ==> r.value.0.value == plain)
            && (plain in old(files) ==>
                  exists n: nat :: (n >= 1 && r.value.0.value == Candidate(destDir, stem, ext, n)
                    && forall k :: 1 <= k < n ==> Candidate(destDir, stem, ext, k) in old(files)))
          else
            r == Err(SourceMissing) && files == old(files)
    {
      var (stem, ext) := SplitName(fileName);
      var target := JoinPath(destDir, stem + "." + ext);
      match policy {
        case Overwrite =>
          if target in files {
            files := files - {target};
          }
          var ok := CopyThenRemove(src, target);
          if !ok {
            return Err(SourceMissing);
          }
          return Ok((Some(target), "Overwrote"));
        case DoNothing =>
          if target in files {
            files := files - {src};
            return Ok((None, "Skipped"));
          }
          var ok := CopyThenRemove(src, target);
          if !ok {
            return Err(SourceMissing);
          }
          return Ok((Some(target), "Created new"));
        case CreateNew =>
          if target in files {
            var n;
            target, n := FreeCandidate(files, destDir, stem, ext);
          }
          var ok := CopyThenRemove(src, target);
          if !ok {
            return Err(SourceMissing);
          }
          return Ok((Some(target), "Created new"));
      }
    }
  }

  /* ------------------------------ legacy URL markers ------------------------------ */

  const AudioMarker: string := "#__audio_only__"
  const FlatMarker: string := "#__flat__"

  /** A link with the legacy markers stripped, and which markers it carried. */
  datatype Stripped = Stripped(url: string, wantAudio: bool, flat: bool)

  /** Every occurrence of `marker` removed, and whether there was one. */
  function RemoveMarker(s: string, marker: string): (r: (string, bool))
    requires marker != []
    ensures r.1 <==> Contains(s, marker)
    ensures !r.1 ==> r.0 == s
  {
    if Contains(s, marker) then (Replace(s, marker, []), true) else (s, false)
  }

  /** `strip_legacy_flags`: the audio marker is removed first, then the flat marker. */
  function StripLegacyFlags(url: string): (r: Stripped)
    ensures r.wantAudio <==> Contains(url, AudioMarker)
    ensures !Contains(url, AudioMarker) ==> (r.flat <==> Contains(url, FlatMarker))
    ensures !Contains(url, AudioMarker) && !Contains(url, FlatMarker) ==> r == Stripped(url, false, false)
  {
    var (afterAudio, wantAudio) := RemoveMarker(url, AudioMarker);
    var (cleaned, flat) := RemoveMarker(afterAudio, FlatMarker);
    Stripped(cleaned, wantAudio, flat)
  }

  /** The markers appended in the order the Home page uses: audio (when wanted), then flat (when wanted). */
  function WithMarkers(u: string, audio: bool, flat: bool): string {
    u + (if audio then AudioMarker else []) + (if flat then FlatMarker else [])
  }

  lemma MarkersHeadUnique()
    ensures HeadUnique(AudioMarker) && HeadUnique(FlatMarker)
  {
  }

  /** Neither marker occurs inside the other. */
  lemma MarkersApart()
    ensures !Contains(FlatMarker, AudioMarker) && !Contains(AudioMarker, FlatMarker)
  {
    NotContainsShorter(FlatMarker, AudioMarker);
    forall j: nat | j + |FlatMarker| <= |AudioMarker|
      ensures !OccursAt(AudioMarker, FlatMarker, j)
    {
      if j == 0 {
        assert AudioMarker[..|FlatMarker|][3] != FlatMarker[3];
      } else {
        assert AudioMarker[j..j + |FlatMarker|][0] != FlatMarker[0];
      }
    }
  }

  /** Removing a marker that was appended once to marker-free text gives the text back. */
  lemma RemoveAppendedMarker(u: string, marker: string, t: string)
    requires HeadUnique(marker) && !Contains(u, marker) && !Contains(t, marker)
    ensures RemoveMarker(u + marker + t, marker) == (u + t, true)
  {
    ContainsAt(u + marker + t, marker, |u|) by {
      assert (u + marker + t)[|u|..|u| + |marker|] == marker;
    }
    RemoveAppended(u, marker, t);
    ReplaceAbsent(t, marker, []);
  }

  /** A marker-free link that gained a marker-free tail starting with `#` still lacks a head-unique marker starting with `#`. */
  lemma NoMarkerAfterJoin(u: string, t: string, marker: string)
    requires HeadUnique(marker) && marker[0] == '#' && !Contains(u, marker) && !Contains(t, marker)
    requires t == [] || t[0] == '#'
    ensures !Contains(u + t, marker)
  {
    if t == [] {
      assert u + t == u;
    } else if Contains(u + t, marker) {
      ContainsJoin(u, t, marker);
    }
  }

  /**
   * Stripping a marker-free link that had the markers appended as the Home page
   * appends them gives back the link and exactly the appended flags.
   */
  lemma StripRoundTrip(u: string, audio: bool, flat: bool)
    requires !Contains(u, AudioMarker) && !Contains(u, FlatMarker)
    ensures StripLegacyFlags(WithMarkers(u, audio, flat)) == Stripped(u, audio, flat)
  {
    MarkersHeadUnique();
    MarkersApart();
    var tail: string := if flat then FlatMarker else [];
    NotContainsInEmpty(AudioMarker);
    NotContainsInEmpty(FlatMarker);
    assert !Contains(tail, AudioMarker);
    if audio {
      assert WithMarkers(u, audio, flat) == u + AudioMarker + tail;
      RemoveAppendedMarker(u, AudioMarker, tail);
    } else {
      assert WithMarkers(u, audio, flat) == u + tail;
      NoMarkerAfterJoin(u, tail, AudioMarker);
    }
    if flat {
      assert u + tail == u + FlatMarker + [];
      RemoveAppendedMarker(u, FlatMarker, []);
      assert u + [] == u;
    } else {
      assert u + tail == u;
    }
  }

  /**
   * Removing a marker can form a new one: a marker cut in two around a second
   * copy of itself comes back whole once the inner copy is removed.
   */
  lemma {:induction false} MarkerReforms(m: string, k: nat)
    requires HeadUnique(m) && 0 < k < |m|
    ensures RemoveMarker(m[..k] + m + m[k..], m) == (m, true)
  {
    NotContainsShorter(m[..k], m);
    NotContainsShorter(m[k..], m);
    RemoveAppendedMarker(m[..k], m, m[k..]);
    assert m[..k] + m[k..] == m;
  }

  /**
   * So stripping does not always leave a marker-free link: the audio marker
   * wrapped around itself strips to the audio marker.
   */
  lemma StripCanLeaveMarker()
    ensures var r := StripLegacyFlags(AudioMarker[..8] + AudioMarker + AudioMarker[8..]);
      r == Stripped(AudioMarker, true, false) && Contains(r.url, AudioMarker)
  {
    MarkersHeadUnique();
    MarkersApart();
    MarkerReforms(AudioMarker, 8);
    ContainsAt(AudioMarker, AudioMarker, 0) by {
      assert AudioMarker[0..|AudioMarker|] == AudioMarker;
    }
  }

  /* ------------------------------ site and destination ------------------------------ */

  /** `infer_site`: the first matching host family wins, in the order instagram, tiktok, youtube, pinterest. */
  function InferSite(url: string): (site: string)
    ensures site in {"instagram", "tiktok", "youtube", "pinterest", "other"}
    ensures site == "instagram" <==> Contains(url, "instagram.com")
    ensures site == "tiktok" <==> !Contains(url, "instagram.com") && Contains(url, "tiktok.com")
    ensures site == "youtube" <==>
      !Contains(url, "instagram.com") && !Contains(url, "tiktok.com")
      && (Contains(url, "youtube.com") || Contains(url, "youtu.be"))
    ensures site == "pinterest" <==>
      !Contains(url, "instagram.com") && !Contains(url, "tiktok.com")
      && !Contains(url, "youtube.com") && !Contains(url, "youtu.be")
      && (Contains(url, "pinterest.com") || Contains(url, "pin.it"))
    ensures site == "other" <==> (
      !Contains(url, "instagram.com") && !Contains(url, "tiktok.com")
      && !Contains(url, "youtube.com") && !Contains(url, "youtu.be")
      && !Contains(url, "pinterest.com") && !Contains(url, "pin.it"))
  {
    if Contains(url, "instagram.com") then "instagram"
    else if Contains(url, "tiktok.com") then "tiktok"
    else if Contains(url, "youtube.com") || Contains(url, "youtu.be") then "youtube"
    else if Contains(url, "pinterest.com") || Contains(url, "pin.it") then "pinterest"
    else "other"
  }

  /** Instagram links lose their query string before download. */
  function InstagramBase(url: string): (r: string)
    ensures |r| <= |url| && r == url[..|r|]
    ensures Contains(url, "instagram.com/") ==> '?' !in r
    ensures !Contains(url, "instagram.com/") || '?' !in url ==> r == url
  {
    if Contains(url, "instagram.com/") then
      match SplitOnce(url, '?')
      case Some((base, _)) => base
      case None => url
    else url
  }

  /** The decisions `execute_download_job` takes before running any tool. */
  datatype JobPlan = JobPlan(cleanedUrl: string, wantAudioOnly: bool, useFlat: bool, site: string, destDir: string)

  /** The `force_audio` of the overrides, if any were given. */
  function ForcedAudio(overrides: Option<DownloadOverrides>): (f: Option<bool>)
    ensures overrides.None? ==> f.None?
    ensures overrides.Some? ==> f == overrides.value.forceAudio
  {
    if overrides.Some? then overrides.value.forceAudio else None
  }

  /** The row's output format read as an audio preference: `audio` and `video` in any case, anything else none. */
  function FormatPreference(fmt: string): (p: Option<bool>)
    ensures p == Some(true) <==> ToLower(fmt) == "audio"
    ensures p == Some(false) <==> ToLower(fmt) == "video"
  {
    var lower := ToLower(fmt);
    if lower == "audio" then Some(true) else if lower == "video" then Some(false) else None
  }

  /**
   * Whether a job downloads audio only. Precedence, highest first: the legacy
   * audio marker, the override's `force_audio`, the row's format, the settings
   * default.
   */
  function AudioPreference(forced: Option<bool>, fmt: string, defaultOutput: DefaultOutput, legacyAudio: bool): (audio: bool)
    ensures legacyAudio ==> audio
    ensures !legacyAudio && forced.Some? ==> audio == forced.value
    ensures !legacyAudio && forced.None? && FormatPreference(fmt).Some? ==> audio == FormatPreference(fmt).value
    ensures !legacyAudio && forced.None? && FormatPreference(fmt).None? ==> (audio <==> defaultOutput == AudioOutput)
  {
    if legacyAudio then true
    else if forced.Some? then forced.value
    else if FormatPreference(fmt).Some? then FormatPreference(fmt).value
    else defaultOutput == AudioOutput
  }

  /** An override never loses to the row's format or the settings: only the legacy marker can turn a forced video job into audio. */
  lemma ForcedAudioWins(forced: bool, fmt: string, fmt2: string, d: DefaultOutput, d2: DefaultOutput)
    ensures AudioPreference(Some(forced), fmt, d, false) == AudioPreference(Some(forced), fmt2, d2, false) == forced
    ensures AudioPreference(Some(forced), fmt, d, true)
  {
  }

  /** The audio preference steps of `execute_download_job`, each filling the preference only while it is still unset. */
  method ResolveAudio(forced: Option<bool>, fmt: string, defaultOutput: DefaultOutput, legacyAudio: bool) returns (wantAudioOnly: bool)
    ensures wantAudioOnly == AudioPreference(forced, fmt, defaultOutput, legacyAudio)
  {
    var wantAudioPref := forced;
    if wantAudioPref.None? {
      wantAudioPref := FormatPreference(fmt);
    }
    if wantAudioPref.None? {
      wantAudioPref := Some(defaultOutput == AudioOutput);
    }
    if legacyAudio {
      wantAudioPref := Some(true);
    }
    wantAudioOnly := wantAudioPref.GetOr(false);
  }

  /**
   * The decisions of `execute_download_job` before any tool runs: the audio
   * preference, flat output when the override or the legacy flat marker asks for
   * it, the link without markers (and without its query for Instagram), the site,
   * and the destination: the download root when flat, else
   * `root/site/collection label`.
   */
  method ResolveJob(row: Row, overrides: Option<DownloadOverrides>, settings: Settings) returns (plan: JobPlan)
    ensures plan.wantAudioOnly
      == AudioPreference(ForcedAudio(overrides), row.outputFormat, settings.defaultOutput, StripLegacyFlags(row.link).wantAudio)
    ensures plan.useFlat <==> (StripLegacyFlags(row.link).flat || (overrides.Some? && overrides.value.flatDestination))
    ensures plan.cleanedUrl == InstagramBase(StripLegacyFlags(row.link).url)
    ensures plan.site == InferSite(plan.cleanedUrl)
    ensures plan.useFlat ==> plan.destDir == settings.downloadDirectory
    ensures !plan.useFlat ==>
      plan.destDir == JoinPath(JoinPath(settings.downloadDirectory, plan.site), CollectionFolderLabel(row.origin, row.userHandle))
  {
    var root := settings.downloadDirectory;
    var stripped := StripLegacyFlags(row.link);
    var cleanedUrl := stripped.url;
    var wantAudioOnly := ResolveAudio(ForcedAudio(overrides), row.outputFormat, settings.defaultOutput, stripped.wantAudio);

    var useFlat := if overrides.Some? then overrides.value.flatDestination else false;
    if stripped.flat {
      useFlat := true;
    }

    cleanedUrl := InstagramBase(cleanedUrl);

    var site := InferSite(cleanedUrl);
    var folderLabel := CollectionFolderLabel(row.origin, row.userHandle);
    var destDir := if useFlat then root else JoinPath(JoinPath(root, site), folderLabel);
    plan := JobPlan(cleanedUrl, wantAudioOnly, useFlat, site, destDir);
  }
}
