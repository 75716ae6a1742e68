/**
 * Application settings (src-tauri/src/settings.rs and the settings record of
 * src-tauri/src/database.rs): the defaults, the never-failing loader and the
 * yt-dlp flags each duplicate policy maps to.
 */
module Settings {
  import opened Common
  import opened Database

  datatype DefaultOutput = AudioOutput | VideoOutput

  /** The settings fields the modelled code reads. */
  datatype Settings = Settings(
    id: Option<int>, downloadDirectory: string, onDuplicate: OnDuplicate,
    defaultOutput: DefaultOutput, downloadAutomatically: bool)

  /** `dirs::download_dir()`, else the home directory, else the empty path. */
  function DefaultDirectory(downloadDir: Option<string>, homeDir: Option<string>): (d: string)
    ensures downloadDir.Some? ==> d == downloadDir.value
    ensures downloadDir.None? && homeDir.Some? ==> d == homeDir.value
    ensures downloadDir.None? && homeDir.None? ==> d == []
  {
    downloadDir.GetOr(homeDir.GetOr([]))
  }

  /** `Settings::default()`: no id, the default directory, CreateNew; video output and automatic downloads by their own defaults. */
  function DefaultSettings(downloadDir: Option<string>, homeDir: Option<string>): (s: Settings)
    ensures s.id.None? && s.onDuplicate == CreateNew
    ensures s.defaultOutput == VideoOutput && s.downloadAutomatically
    ensures s.downloadDirectory == DefaultDirectory(downloadDir, homeDir)
  {
    Settings(None, DefaultDirectory(downloadDir, homeDir), CreateNew, VideoOutput, true)
  }

  /**
   * `load_settings`: the stored settings when the database opens and the read
   * succeeds; the defaults on either failure.
   */
  function LoadSettings(stored: Result<Result<Settings, string>, string>, downloadDir: Option<string>, homeDir: Option<string>): (s: Settings)
    ensures stored.Ok? && stored.value.Ok? ==> s == stored.value.value
    ensures !(stored.Ok? && stored.value.Ok?) ==> s == DefaultSettings(downloadDir, homeDir)
  {
    match stored
    case Ok(read) => (match read case Ok(st) => st case Err(_) => DefaultSettings(downloadDir, homeDir))
    case Err(_) => DefaultSettings(downloadDir, homeDir)
  }

  /** `get_yt_dlp_duplicate_flags`. */
  function DuplicateFlags(d: OnDuplicate): (flags: seq<string>)
    ensures d == Overwrite <==> flags == ["--force-overwrites"]
    ensures d == CreateNew <==> flags == []
    ensures d == DoNothing <==> flags == ["--no-overwrites", "--no-continue"]
  {
    match d
    case Overwrite => ["--force-overwrites"]
    case CreateNew => []
    case DoNothing => ["--no-overwrites", "--no-continue"]
  }

  /** Each policy has its own flag list, so the policy can be read back from the flags. */
  lemma DuplicateFlagsInjective(a: OnDuplicate, b: OnDuplicate)
    requires DuplicateFlags(a) == DuplicateFlags(b)
    ensures a == b
  {
  }

  /** Whatever the stored policy, the flags the downloader receives are one of the three fixed lists. */
  lemma LoadedFlags(stored: Result<Result<Settings, string>, string>, downloadDir: Option<string>, homeDir: Option<string>)
    ensures var flags := DuplicateFlags(LoadSettings(stored, downloadDir, homeDir).onDuplicate);
      flags == [] || flags == ["--force-overwrites"] || flags == ["--no-overwrites", "--no-continue"]
    ensures !(stored.Ok? && stored.value.Ok?) ==> DuplicateFlags(LoadSettings(stored, downloadDir, homeDir).onDuplicate) == []
  {
  }
}
