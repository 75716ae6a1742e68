# ClipScraper download core, modelled in Dafny

ClipScraper collects links to clips (YouTube, TikTok, Instagram, Pinterest) in a
SQLite table. It downloads them in the background and shows them on three pages:

- the backlog/queue page ("Downloads");
- the finished downloads ("Library");
- the import page.

This project models the parts of the Rust backend and the Yew frontend that
decide what happens to a link, and proves what those parts promise.

Backend (`src-tauri/src`):

- `Database` (database.rs):
  - the enum conversions read from and written to the table;
  - `normalize_link`;
  - the collection folder label;
  - the UI listings;
  - the status moves between backlog and queue;
  - `mark_link_done` and the output-format toggle.

  The table is a class whose `rows` field the methods update. Ids ascend with
  position and stay below the next id handed out.
- `Parse` (commands/parse.rs):
  - the id extractors for Instagram, TikTok and YouTube links, and `last_segment`;
  - the downloaders' output parser, which recognises the reported paths, removes
    duplicates by first appearance, and reads the uploader and title from the
    file names and folders.
- `Pipeline` (download/pipeline.rs):
  - `move_with_policy`, on a folder class whose file set the move updates;
  - the free-name search under CreateNew;
  - `strip_legacy_flags` and `infer_site`;
  - the audio/flat/destination decisions `execute_download_job` takes before it
    runs any tool.
- `Manager` (download/manager.rs): the download actor as a class with its queue,
  running set, overrides map, pause flag and parallelism bound. It covers each
  command, the start pass of `maybe_start_next`, and the command loop.
- `Downloader` (commands/downloader.rs): `download_url`, `sanitize_url`,
  `ensure_row_for_url` and the platform and media inference.
- `Import` (commands/import.rs): `import_csv_to_db` over already-decoded CSV
  records.
- `Settings` (settings.rs): the defaults, `load_settings`' fallbacks and the
  duplicate-policy flags.
- `Url` (utils/url.rs): `is_instagram_post` and `is_tiktok_photo`.

Frontend (`src`):

- `UiTypes` (types.rs): the platform and content-type tokens.
- `Labels` (pages/downloads.rs and pages/library.rs):
  - `url_after_domain` and `last_two_path_segments`;
  - the item labels;
  - `collection_title`;
  - the row icons.
- `Grouping`: the grouping both pages share.
  - It drops duplicate rows by a string key, keeping the first.
  - It groups rows by platform, then by collection.
  - It sorts each collection by item label.

  It is generic over the row, the key and the label.
- `DownloadsPage` (pages/downloads.rs):
  - the de-duplication key;
  - the per-section grouping;
  - the audio/video toggle with its local overrides.
- `App` (app.rs): `on_delete` for the three kinds of delete.
- `LibraryPage` (pages/library.rs):
  - the Library grouping;
  - the per-platform and per-collection link lists;
  - the optimistic deletes.

`Text` and `Common` model the Rust standard-library operations the code relies
on (`find`, `split`, `trim`, `replace`, `to_lowercase`, `filter`, `map`). They
carry no rows below.

Environment effects are parameters of the model. These are:

- the set of status writes that fail;
- the record numbers whose insert fails;
- the files present in a folder;
- the stored settings.

The de-duplication key is a `|`-joined string, so two different rows can collide
when a handle or link itself contains `|`. `DownloadsPage.DedupKeyCollision`
exhibits such a pair. The grouping then keeps only the first of the two, as the
source does.

## Model

| member | source | states |
|---|---|---|
| Database.CollectionFolderLabel | src-tauri/src/database.rs:502-508 | the folder label is `manual - Unknown` when the origin is blank and the handle blank or any spelling of "unknown"; with a non-blank origin and a real handle it is the trimmed origin, ` - `, the trimmed handle |
| Database.EncodeDownload | src-tauri/src/database.rs:407-433 | defines the stored columns of an inserted download; Database.EncodeDecode states each decodes back, and that an empty path is stored as `unknown_path` |
| Database.PlatformFrom | src-tauri/src/database.rs:89-98 | any result other than the Youtube fallback is the platform whose lower-case token is the lower-cased text |
| Database.MediaFrom | src-tauri/src/database.rs:100-108 | image/images in any case give Image, everything else Video |
| Database.OriginFrom | src-tauri/src/database.rs:110-123 | any result other than the Manual fallback is the origin whose token is the lower-cased text |
| Database.StatusFrom | src-tauri/src/database.rs:125-134 | any result other than the Queue fallback is the status whose token is the lower-cased text |
| Database.OnDuplicateFrom | src-tauri/src/database.rs:143-152 | any result other than the CreateNew fallback is the policy whose token is the lower-cased text |
| Database.FormatFrom | src-tauri/src/database.rs:164-172 | any result other than the Default fallback is the format whose token is the lower-cased text |
| Database.ConversionsIgnoreCase | src-tauri/src/database.rs:89-172 | every conversion gives the same value for a text and its lower-cased form |
| Database.PlatformRoundTrip | src-tauri/src/database.rs:415-416 | the token insert_download writes for a platform decodes to that platform |
| Database.PlatformTokenLower | src-tauri/src/database.rs:416 | platform tokens are already lower case |
| Database.MediaRoundTrip | src-tauri/src/database.rs:418 | the stored media token decodes back to the media kind |
| Database.MediaTokenLower | src-tauri/src/database.rs:418 | media tokens are already lower case |
| Database.OriginRoundTrip | src-tauri/src/database.rs:420 | the stored origin token decodes back to the origin |
| Database.OriginTokenLower | src-tauri/src/database.rs:420 | origin tokens are already lower case |
| Database.StatusRoundTrip | src-tauri/src/database.rs:423 | the stored status token decodes back to the status |
| Database.StatusTokenLower | src-tauri/src/database.rs:423 | status tokens are already lower case |
| Database.OnDuplicateRoundTrip | src-tauri/src/database.rs:143-152 | the lower-cased policy name decodes back to the policy |
| Database.OnDuplicateTokenLower | src-tauri/src/database.rs:143-152 | policy tokens are already lower case |
| Database.FormatRoundTrip | src-tauri/src/database.rs:422 | the stored output-format token decodes back to the format |
| Database.FormatTokenLower | src-tauri/src/database.rs:422 | output-format tokens are already lower case |
| Database.StoredPath | src-tauri/src/database.rs:408-412 | the stored path is `unknown_path` for an empty path and the path itself otherwise, so it is never empty |
| Database.EncodeDecode | src-tauri/src/database.rs:407-433 | decoding every column of an inserted row gives back the download; a non-empty path is stored as it is and an empty one as `unknown_path` |
| Database.AfterSchemeFrom | src-tauri/src/database.rs:211-213 | the scan from a position never lengthens the link; AfterSchemeFromOf and AfterSchemeFromNone state what it returns |
| Database.AfterSchemeFromOf | src-tauri/src/database.rs:211-213 | the scan returns the text after the first `://` at or after the position |
| Database.AfterSchemeFromNone | src-tauri/src/database.rs:211-213 | with no `://` at or after the position the whole link is returned |
| Database.AfterScheme | src-tauri/src/database.rs:211-213 | the scheme step never lengthens the link; AfterSchemeOf states what it keeps |
| Database.LowerHost | src-tauri/src/database.rs:215-220 | the host step keeps the length; LowerHostAt states it character by character |
| Database.LowerHostAt | src-tauri/src/database.rs:215-220 | each character before the first `/` is lower-cased and each from the first `/` on is kept |
| Database.DropWww | src-tauri/src/database.rs:222 | the `www.` step never lengthens the link; DropWwwShape states what it keeps |
| Database.DropWwwShape | src-tauri/src/database.rs:222 | the result is a suffix of the link that does not start with `www.`, and a link not starting with `www.` is kept whole |
| Database.NormalizeFrom | src-tauri/src/database.rs:209-228 | each step of normalize_link, applied in source order |
| Database.NormalizedLink | src-tauri/src/database.rs:209-228 | the normalised link has no `?` and does not end in `/` |
| Database.NormalizeLink | src-tauri/src/database.rs:209-228 | the imperative version, with its trailing-slash pop loop, equals NormalizedLink |
| Database.NormalizedLinkOf | src-tauri/src/database.rs:209-228 | `scheme://host/path` with a lower-case host and a clean path normalises to `host/path`, keeping the path's letter case |
| Database.NormalizeFromHostOn | src-tauri/src/database.rs:215-226 | from the host step on, a link already in normal form is a fixed point |
| Database.AfterSchemeOf | src-tauri/src/database.rs:211-213 | a slash-free scheme followed by `://` is cut off exactly |
| Database.LowerHostOf | src-tauri/src/database.rs:215-220 | a lower-case host followed by a path is left unchanged |
| Database.NoWwwOf | src-tauri/src/database.rs:222 | a host not starting with `www.` is not changed by the www step |
| Database.LabelOrigin | src-tauri/src/database.rs:503-505 | the origin half is `manual` when the trimmed origin is blank and the trimmed origin otherwise; it is never blank |
| Database.LabelHandle | src-tauri/src/database.rs:504-506 | the handle half is `Unknown` when the trimmed handle is blank or any spelling of "unknown", and the trimmed handle otherwise; it is never blank |
| Database.CollectionFolderLabelParts | src-tauri/src/database.rs:502-508 | when the trimmed origin has no `-`, the folder label splits at its first ` - ` back into the origin half and the handle half |
| Database.UiContentType | src-tauri/src/database.rs:533-536 | the result is always one of the six UI content types, and equals the origin exactly when the origin is one of them |
| Database.UiMedia | src-tauri/src/database.rs:537-541 | the result is `pictures` exactly for stored `image`/`images`, else `video` |
| Database.UiRowsWithStatus | src-tauri/src/database.rs:514-552 | no more UI rows than stored rows; each has a UI content type; a UI row is listed exactly when it is the conversion of a stored row with that status |
| Database.UiRowsAppend | src-tauri/src/database.rs:514-552 | the listing keeps the order of the rows it is given: listing two runs of rows is listing each and concatenating |
| Database.UiRowsCount | src-tauri/src/database.rs:514-552 | a listing has as many rows as the table has rows with that status |
| Database.MoveRows | src-tauri/src/database.rs:632-695 | the table keeps its length and each row becomes its moved form (status changed only when selected and in the from-status) |
| Database.MoveTouchesOnlySelected | src-tauri/src/database.rs:632-695 | with distinct statuses, a row changes exactly when it is selected and has the from-status, and it keeps its id and link |
| Database.UpdateRows | src-tauri/src/database.rs:632-695 | the row-by-row UPDATE loop yields MoveRows and counts the changed rows |
| Database.ReplaceKeepsValid | src-tauri/src/database.rs:458-463 | an UPDATE by id that keeps the id keeps the table's id invariant |
| Database.MoveKeepsValid | src-tauri/src/database.rs:632-695 | status moves keep the id invariant |
| Database.AppendKeepsValid | src-tauri/src/database.rs:414-432 | inserting with the next id keeps the id invariant |
| Database.MoveBack | src-tauri/src/database.rs:632-695 | moving from one status to another and back restores the table when no selected row was already in the target status |
| Database.CountMovedBound | src-tauri/src/database.rs:632-695 | an UPDATE reports at most as many rows as the table has |
| Database.PickForLink | src-tauri/src/database.rs:309-314 | the chosen row has the link; no row with the link ranks strictly earlier (queue, then backlog, then the rest, then id); none is chosen only when no row has the link |
| Database.ToggledFormat | src-tauri/src/database.rs:318-322 | audio becomes video; every other format becomes audio |
| Database.ToggleTwice | src-tauri/src/database.rs:318-322 | toggling audio or video twice gives it back |
| Database.LinkKeys | src-tauri/src/database.rs:446-454 | one key per row |
| Database.LinkKeysAt | src-tauri/src/database.rs:446-454 | the key at each position is that row's normalised link |
| Database.NormalizeLinks | src-tauri/src/database.rs:446-454 | the loop normalising every row's link yields LinkKeys |
| Database.QueuedMatchFrom | src-tauri/src/database.rs:446-455 | the result is the first queued row, from the start position on, whose key matches; none when no later queued row matches |
| Database.KeysOfEqualLinks | src-tauri/src/database.rs:457-468 | a row whose link equals the argument has the argument's normalised key |
| Database.NoQueuedMatchNoLink | src-tauri/src/database.rs:457-468 | when the normalised scan finds nothing, no queued row has exactly the link, so the strict fallback UPDATE changes nothing |
| Database.Table.constructor | src-tauri/src/database.rs:232-239 | a new table is empty, its next id is 1, and it is valid |
| Database.Table.InsertDownload | src-tauri/src/database.rs:407-433 | the encoded row is appended under the fresh id and the next id advances by one |
| Database.Table.FindIdByLink | src-tauri/src/commands/downloader.rs:113 | the id returned belongs to the first row with exactly this link; none only when no row has the link |
| Database.Table.MarkLinkDone | src-tauri/src/database.rs:437-470 | the first queued row, in id order, whose normalised link matches becomes done with the stored path, and 1 is returned; otherwise nothing changes and 0 is returned |
| Database.Table.FindQueuedMatch | src-tauri/src/database.rs:442-455 | the scan returns QueuedMatchFrom from the start |
| Database.Table.ToggleOutputFormatForLink | src-tauri/src/database.rs:309-329 | only the row PickForLink chooses has its format toggled, with result 1; when no row has the link nothing changes and 0 is returned |
| Database.Table.MoveWhere | src-tauri/src/database.rs:632-695 | the rows become MoveRows and the count is the number of changed rows |
| Database.Table.MoveLinkToQueue | src-tauri/src/database.rs:632-635 | backlog rows with the link move to queue and nothing else changes |
| Database.Table.MoveCollectionToQueue | src-tauri/src/database.rs:638-650 | backlog rows of the collection (platform, handle, origin) move to queue |
| Database.Table.MovePlatformToQueue | src-tauri/src/database.rs:652-662 | backlog rows of the platform move to queue |
| Database.Table.MoveLinkToBacklog | src-tauri/src/database.rs:666-669 | queued rows with the link move to backlog |
| Database.Table.MoveCollectionToBacklog | src-tauri/src/database.rs:672-684 | queued rows of the collection move to backlog |
| Database.Table.MovePlatformToBacklog | src-tauri/src/database.rs:686-695 | queued rows of the platform move to backlog |
| Database.Table.ListUi | src-tauri/src/database.rs:514-630 | the listing for a status is UiRowsWithStatus of the table |
| Parse.IgPathParts | src-tauri/src/commands/parse.rs:5-7 | parts are present exactly when the link contains `instagram.com/`; IgPathPartsOf states what they are |
| Parse.IgHandleAndId | src-tauri/src/commands/parse.rs:4-18 | a handle and an id are both present or both absent; when present the link contains `instagram.com/` and neither contains `/` |
| Parse.IgHandleAndIdExactly | src-tauri/src/commands/parse.rs:4-18 | a handle and an id are present exactly when the path after `instagram.com/` has at least three parts and the second is `reel` or `p`; then they are the first and third parts |
| Parse.IgHandleAndIdOf | src-tauri/src/commands/parse.rs:4-18 | a link built as `instagram.com/handle/kind/id...` gives back that handle and id |
| Parse.IgPathPartsOf | src-tauri/src/commands/parse.rs:5-7 | when the first `instagram.com/` ends the prefix, the parts are the `/`-split of the text after it with outer slashes trimmed |
| Parse.IdAfter | src-tauri/src/commands/parse.rs:22-29 | a found id is non-empty, contains none of `/`, `?`, `&`, and the link contains the key |
| Parse.IdAfterOf | src-tauri/src/commands/parse.rs:23-28 | key, id, then a stop character or the end gives that id |
| Parse.TikTokIdFromUrl | src-tauri/src/commands/parse.rs:21-32 | a found id is non-empty, free of `/`, `?`, `&`, and the link contains `/video/` or `/photo/`; TikTokVideoId and TikTokPhotoId state which is preferred |
| Parse.TikTokVideoId | src-tauri/src/commands/parse.rs:21-32 | a `/video/<id>` link yields its id |
| Parse.TikTokPhotoId | src-tauri/src/commands/parse.rs:21-32 | a `/photo/<id>` link with no `/video/` yields its id |
| Parse.VParam | src-tauri/src/commands/parse.rs:37-43 | a found value is non-empty and some pair is exactly `v=` followed by it |
| Parse.YoutubeIdFromUrl | src-tauri/src/commands/parse.rs:35-53 | a found id is never empty, and a link without a query yields one only through `/shorts/` |
| Parse.YoutubeWatchId | src-tauri/src/commands/parse.rs:35-44 | a `?v=<id>` link yields that id, even when its path has `/shorts/` |
| Parse.QueryOf | src-tauri/src/commands/parse.rs:36-37 | the query string starts after the first `?` |
| Parse.VParamFirst | src-tauri/src/commands/parse.rs:37-43 | a leading `v=<id>` pair gives the id |
| Parse.YoutubeShortsId | src-tauri/src/commands/parse.rs:45-51 | a shorts link without a query yields the id after `/shorts/` |
| Parse.LastSegment | src-tauri/src/commands/parse.rs:56-62 | a found segment is non-empty and contains neither `/` nor `?` |
| Parse.LastSegmentOf | src-tauri/src/commands/parse.rs:56-62 | `.../seg///?query` yields `seg` |
| Parse.Components | src-tauri/src/commands/parse.rs:156 | no path component is empty, `.` or contains `/` |
| Parse.NameFromEnd | src-tauri/src/commands/parse.rs:183-189 | a found name is non-empty, not `..` and contains no `/` |
| Parse.FileStem | src-tauri/src/commands/parse.rs:162 | a stem exists exactly when a file name does, and is a non-empty prefix of it |
| Parse.FolderHandle | src-tauri/src/commands/parse.rs:182-196 | a found handle is non-empty and never a platform folder name |
| Parse.NamesOfPath | src-tauri/src/commands/parse.rs:183-189 | in `dir/a/b/f` the file is `f`, its parent `b` and its grandparent `a` |
| Parse.FolderHandleOfPath | src-tauri/src/commands/parse.rs:182-196 | for plain names, `dir/a/b/f` gives b unless b is a platform folder, else a unless a is one too, else nothing |
| Parse.TitleFromStem | src-tauri/src/commands/parse.rs:161-174 | a stem without `[` is its own title; a title cut from a stem with `[` contains no `[` |
| Parse.TitleFromStemOf | src-tauri/src/commands/parse.rs:161-174 | the stem yt-dlp writes as `uploader - title [id]` gives back the title |
| Parse.StemHeadOf | src-tauri/src/commands/parse.rs:164-165 | the part before `[` of such a stem is `uploader - title` plus a space |
| Parse.Lines | src-tauri/src/commands/parse.rs:81 | no line contains a newline |
| Parse.GalleryLine | src-tauri/src/commands/parse.rs:84-88 | a gallery-dl `# <path>` line with a non-empty path reports the trimmed path |
| Parse.DestinationLine | src-tauri/src/commands/parse.rs:89-93 | a yt-dlp `[download] Destination: <path>` line reports the trimmed path |
| Parse.CandidateFromLine | src-tauri/src/commands/parse.rs:84-144 | defines the path one trimmed output line reports, trying the gallery-dl, destination, merge, printed-path, already-downloaded and archive-skip forms in that order; stated by Parse.GalleryLine, Parse.DestinationLine, Parse.MergingLine, Parse.AbsolutePathLine and Parse.AlreadyDownloadedLine |
| Parse.MergeTargetQuoted | src-tauri/src/commands/parse.rs:96-100 | the merge target of a line ending in a quoted, quote-free path is that path |
| Parse.MergingLine | src-tauri/src/commands/parse.rs:94-106 | a yt-dlp `[Merger] Merging formats into "<path>"` line reports the quoted path verbatim, without trimming, when the path holds no quote and no `Destination: ` |
| Parse.AbsolutePathLine | src-tauri/src/commands/parse.rs:107-119 | a printed absolute Unix path that holds a `.` and neither earlier tag is reported as it is |
| Parse.AlreadyBranch | src-tauri/src/commands/parse.rs:120-131 | a `[download] ` line with ` has already been downloaded` that no earlier form matches reports the trimmed name before that tag under the hint, and nothing when the name is blank or there is no hint |
| Parse.AlreadyDownloadedLine | src-tauri/src/commands/parse.rs:120-131 | `[download] <name> has already been downloaded` reports `<hint>/<trimmed name>` with a non-empty hint and nothing without one, when the name is not blank, does not start with `[`, and holds neither earlier tag nor the already-downloaded tag |
| Parse.FirstIndex | src-tauri/src/commands/parse.rs:146-153 | the index holds the value and no earlier index does |
| Parse.Dedup | src-tauri/src/commands/parse.rs:146-153 | the result has no duplicates and holds exactly the values of the input |
| Parse.FirstIndexUnique | src-tauri/src/commands/parse.rs:146-153 | in a list without duplicates a value's first index is its only index |
| Parse.DedupFirstOrder | src-tauri/src/commands/parse.rs:146-153 | values come out in the order of their first appearance |
| Parse.IgHandleNonEmpty | src-tauri/src/commands/parse.rs:4-18 | a handle read from a link is never empty, because the outer slashes are trimmed before the path is split |
| Parse.HandleFor | src-tauri/src/commands/parse.rs:175-193 | the uploader of a reported path is never empty, and it is a platform folder name only when the Instagram link gave it |
| Parse.EntryFor | src-tauri/src/commands/parse.rs:155-205 | the full path is kept and the handle is non-empty; a platform-folder handle can only come from the Instagram link; an Instagram id is the name; otherwise a stem without `[` is the name |
| Parse.Fallback | src-tauri/src/commands/parse.rs:208-217 | the path is empty; with an Instagram handle and id those are the handle and name, otherwise both are Unknown |
| Parse.EntriesFor | src-tauri/src/commands/parse.rs:155-206 | one entry per path, in order |
| Parse.FilesFromOutput | src-tauri/src/commands/parse.rs:66-220 | never empty; no two entries share a path; every path is a reported candidate unless the result is the single fallback; an Instagram id names every entry |
| Parse.ParseMultipleFilenamesFromOutput | src-tauri/src/commands/parse.rs:66-220 | the three loops compute FilesFromOutput |
| Parse.CollectCandidates | src-tauri/src/commands/parse.rs:81-144 | the line loop yields one candidate per recognised line, in line order |
| Parse.DedupPaths | src-tauri/src/commands/parse.rs:146-153 | the loop with its seen-set computes Dedup |
| Parse.BuildEntries | src-tauri/src/commands/parse.rs:155-206 | the loop computes EntriesFor |
| Pipeline.SplitName | src-tauri/src/download/pipeline.rs:31-34 | the extension is non-empty and dot-free and, with the stem and a `.`, rebuilds the name; otherwise the whole name with `bin`, which a dot-free name and a name whose stem would be empty (such as `.bashrc`) always get |
| Pipeline.SplitNameOf | src-tauri/src/download/pipeline.rs:31-34 | a non-empty stem and a dot-free, non-empty extension split back into themselves |
| Pipeline.NatToString | src-tauri/src/download/pipeline.rs:61 | the decimal form is non-empty and has one digit exactly for numbers below ten |
| Pipeline.NatToStringInjective | src-tauri/src/download/pipeline.rs:61 | different numbers are written differently |
| Pipeline.CandidateInjective | src-tauri/src/download/pipeline.rs:59-67 | different numbers give different `stem (n).ext` paths |
| Pipeline.CandidateStep | src-tauri/src/download/pipeline.rs:59-67 | each occupied candidate passed leaves fewer existing files unexamined, which bounds the search |
| Pipeline.FreeCandidate | src-tauri/src/download/pipeline.rs:57-68 | the search returns the first free `stem (n).ext` with n at least 1; every earlier candidate exists |
| Pipeline.Folder.CopyThenRemove | src-tauri/src/download/pipeline.rs:42-43 | the copy succeeds exactly when the source exists; the target is added and the source removed; a failure changes nothing |
| Pipeline.Folder.MoveWithPolicy | src-tauri/src/download/pipeline.rs:25-75 | per policy: Overwrite replaces the target; DoNothing skips and deletes the source when the target exists; CreateNew picks the first free numbered name; the result reports the final path and the action word, or the copy error |
| Pipeline.RemoveMarker | src-tauri/src/download/pipeline.rs:387-394 | the flag is set exactly when the marker occurs; with no marker the text is unchanged |
| Pipeline.StripLegacyFlags | src-tauri/src/download/pipeline.rs:383-396 | the audio flag is set exactly when the audio marker occurs; without it, the flat flag is set exactly when the flat marker occurs; a link with neither marker is kept with both flags clear |
| Pipeline.MarkersApart | src-tauri/src/download/pipeline.rs:383-396 | neither marker occurs inside the other |
| Pipeline.RemoveAppendedMarker | src-tauri/src/download/pipeline.rs:389 | removing a marker appended once to marker-free text gives the text back |
| Pipeline.StripRoundTrip | src-tauri/src/download/pipeline.rs:383-396 | a marker-free link with the markers appended as src/pages/home.rs:209-212 appends them strips back to the link and exactly those flags |
| Pipeline.MarkerReforms | src-tauri/src/download/pipeline.rs:389 | removing a marker can join the pieces around it into a new marker |
| Pipeline.StripCanLeaveMarker | src-tauri/src/download/pipeline.rs:383-396 | stripping does not always leave a marker-free link: the audio marker split around a copy of itself strips to the audio marker |
| Pipeline.InferSite | src-tauri/src/download/pipeline.rs:398-410 | the site is one of five names, each exactly when its host family is the first to match in the order instagram.com, tiktok.com, youtube.com or youtu.be, pinterest.com or pin.it; other exactly when none matches |
| Pipeline.InstagramBase | src-tauri/src/download/pipeline.rs:153-157 | the result is a prefix of the link; an Instagram link keeps no `?`; any other link, or one without `?`, is unchanged |
| Pipeline.ForcedAudio | src-tauri/src/download/pipeline.rs:128 | force_audio of the overrides when they are given, else none |
| Pipeline.FormatPreference | src-tauri/src/download/pipeline.rs:130-136 | audio and video in any letter case give a preference; anything else gives none |
| Pipeline.AudioPreference | src-tauri/src/download/pipeline.rs:128-143 | the legacy marker forces audio; otherwise the override wins, then the row format, then the default output setting |
| Pipeline.ForcedAudioWins | src-tauri/src/download/pipeline.rs:128-143 | with an override, neither the row format nor the default output changes the outcome |
| Pipeline.ResolveAudio | src-tauri/src/download/pipeline.rs:128-143 | the step-by-step fill of the preference computes AudioPreference |
| Pipeline.ResolveJob | src-tauri/src/download/pipeline.rs:128-165 | sets audio from AudioPreference; flat when the flat marker or the override asks; the cleaned link is the stripped, Instagram-trimmed link; the site is inferred from it; the destination is the download root when flat, else root/site/folder-label |
| Manager.AtLeastOne | src-tauri/src/download/manager.rs:103 | the bound is the setting when it is at least 1, else 1 |
| Manager.Without | src-tauri/src/download/manager.rs:242 | no longer than the queue; holds exactly the queue's ids outside the removed set |
| Manager.WithoutDistinct | src-tauri/src/download/manager.rs:242 | removing ids from a queue without duplicates leaves it without duplicates |
| Manager.WithoutTwice | src-tauri/src/download/manager.rs:241-242 | removing one set after another is removing their union |
| Manager.WithoutEmpty | src-tauri/src/download/manager.rs:242 | removing nothing changes nothing |
| Manager.Admitted | src-tauri/src/download/manager.rs:206-230 | an id is appended, at most once, exactly when it is in the request, not queued, not active and its status write succeeds |
| Manager.AdmittedAll | src-tauri/src/download/manager.rs:206-230 | with no failures and an empty state, a duplicate-free request is admitted whole, in order |
| Manager.StartPass | src-tauri/src/download/manager.rs:324-395 | the remaining queue is a suffix of the old queue |
| Manager.StartPassBound | src-tauri/src/download/manager.rs:324-327 | the pass stops only at an empty queue or a full running set, and either keeps the running set within the bound or leaves it as it was |
| Manager.StartPassStarted | src-tauri/src/download/manager.rs:324-394 | the running set grows by exactly the started ids; each was queued, not running, and its status write succeeded |
| Manager.RemoveIds | src-tauri/src/download/manager.rs:358 | removing the ids one by one is removing them all at once |
| Manager.StartPassOverrides | src-tauri/src/download/manager.rs:358 | a started task consumes its overrides entry; every other entry stays |
| Manager.StartPassFifo | src-tauri/src/download/manager.rs:324-344 | tasks start in queue order: the started ids followed by the rest of the queue, both without the failing ids, are the old queue without them |
| Manager.StartPassTaken | src-tauri/src/download/manager.rs:358-360 | every started task carries the overrides recorded for its id before the pass |
| Manager.StartPassValid | src-tauri/src/download/manager.rs:324-394 | a duplicate-free queue disjoint from the running set stays so |
| Manager.StartPassAbsent | src-tauri/src/download/manager.rs:324-394 | an id neither queued nor running is neither queued nor running afterwards, and gains no overrides entry |
| Manager.StartPassOverrideKept | src-tauri/src/download/manager.rs:358 | a recorded override survives the pass unless its task started, and then the task carries it |
| Manager.Dispatched | src-tauri/src/download/manager.rs:121-181 | a command keeps the invariant; only RefreshSettings moves the bound (to at least 1) and only SetPaused the flag; Enqueue and StartNow extend the queue, and each requested id ends up queued unless it was running or its status write failed; StartNow records its overrides; MoveToBacklog and Cancel leave their ids nowhere; TaskFinished drops its id from the running set; no other queued id is lost |
| Manager.Step | src-tauri/src/download/manager.rs:121-194 | a command and its start pass keep the invariant and the pause flag and bound set by the command; a paused actor starts nothing and changes only what the command does unless the command is StartNow |
| Manager.StepEffects | src-tauri/src/download/manager.rs:134-194 | after the start pass, moved and cancelled ids are neither queued, running nor holding overrides; a finished id that was not queued stays out of the running set; a StartNow override is either still recorded or carried by a started task |
| Manager.RunFrom | src-tauri/src/download/manager.rs:120-195 | any command sequence keeps the actor invariant |
| Manager.RunFromSnoc | src-tauri/src/download/manager.rs:120-195 | one more command after a run is one more step, appending its started tasks |
| Manager.RunFromAppendState | src-tauri/src/download/manager.rs:120-195 | two batches of commands leave the actor in the same state as their concatenation |
| Manager.RunFromAppend | src-tauri/src/download/manager.rs:120-195 | two batches of commands start the same tasks, in the same order, as their concatenation |
| Manager.PausedStartsNothing | src-tauri/src/download/manager.rs:175-194 | a paused actor given no StartNow and no unpause stays paused and starts no task |
| Manager.DownloadManager.constructor | src-tauri/src/download/manager.rs:98-103 | the actor starts with everything empty, paused unless downloads start automatically, and a bound of at least 1 |
| Manager.DownloadManager.EnqueueIds | src-tauri/src/download/manager.rs:198-231 | the queue gains exactly the admitted ids, in request order; the running set and the overrides are unchanged |
| Manager.DownloadManager.MoveIdsToBacklog | src-tauri/src/download/manager.rs:233-270 | the ids leave the queue, the running set and the overrides; the rest keeps its order |
| Manager.DownloadManager.CancelActive | src-tauri/src/download/manager.rs:272-308 | the id leaves the queue, its overrides and its running task |
| Manager.DownloadManager.MaybeStartNext | src-tauri/src/download/manager.rs:310-396 | paused and not forced, nothing changes; otherwise the loop's result equals StartPass |
| Manager.DownloadManager.Dispatch | src-tauri/src/download/manager.rs:121-181 | the new state is exactly `Dispatched` of the old state and the command, and only StartNow forces the start pass |
| Manager.DownloadManager.HandleCommand | src-tauri/src/download/manager.rs:121-194 | the new state and the started tasks are exactly `Step` of the old state and the command |
| Manager.DownloadManager.Run | src-tauri/src/download/manager.rs:120-195 | the final state and the tasks started, in order, are exactly `RunFrom` of the initial state and the command sequence; the invariant holds throughout |
| Downloader.SanitizeUrl | src-tauri/src/commands/downloader.rs:105-109 | a trimmed link holding neither marker is returned as it is; in general sanitising is the job's marker stripping after a trim (Downloader.SanitizeIsStrip) |
| Downloader.ForceAudioArg | src-tauri/src/commands/downloader.rs:17-24 | the snake_case argument is preferred; audio and video in any case give a preference, anything else none |
| Downloader.SnakeCaseFormatWins | src-tauri/src/commands/downloader.rs:17-24 | a snake_case format argument decides whatever the camelCase one says |
| Downloader.FlatArg | src-tauri/src/commands/downloader.rs:25 | the snake_case flag is preferred over the camelCase one; false when neither is given |
| Downloader.SanitizeIsStrip | src-tauri/src/commands/downloader.rs:105-109 | sanitising is trimming followed by the pipeline's marker stripping |
| Downloader.SanitizeRoundTrip | src-tauri/src/commands/downloader.rs:105-109 | a trimmed, marker-free link with markers appended sanitises back to itself |
| Downloader.InferPlatform | src-tauri/src/commands/downloader.rs:144-154 | instagram, then tiktok, then pinterest or pin.it; everything else is Youtube |
| Downloader.InferMedia | src-tauri/src/commands/downloader.rs:156-162 | Image exactly for `/photo/` links and pinterest.com links |
| Downloader.PlatformMatchesSite | src-tauri/src/commands/downloader.rs:144-154 | the instagram and tiktok sites match the Instagram and TikTok platforms exactly; a pinterest site gives Pinterest; a Youtube platform comes only from a youtube or other site |
| Downloader.OutputFor | src-tauri/src/commands/downloader.rs:119-123 | a forced audio preference gives Audio and only it does; a forced video preference gives Video and only it does |
| Downloader.NewRowReadsBack | src-tauri/src/commands/downloader.rs:125-140 | the inserted manual row decodes to platform, media, Manual, Unknown, Queue and the forced format |
| Downloader.EnsureRowForUrl | src-tauri/src/commands/downloader.rs:111-142 | an existing row with the link is reused and nothing is inserted; otherwise exactly one manual queued row is appended |
| Downloader.DownloadUrl | src-tauri/src/commands/downloader.rs:9-54 | the row for the sanitised link exists afterwards; at most one row is added; the command sent is StartNow for it with the parsed overrides |
| Import.ImportHandle | src-tauri/src/commands/import.rs:48-50 | defines the imported row's handle; stated by Import.ImportHandleRules |
| Import.ImportOrigin | src-tauri/src/commands/import.rs:28-35 | defines the origin for a type column; stated by Import.ImportOriginRules |
| Import.ImportName | src-tauri/src/commands/import.rs:37-46 | defines the imported row's name; its branches are stated by Import.ImportNameRules and Import.ImportNameCanBeEmpty |
| Import.Field | src-tauri/src/commands/import.rs:19-23 | a missing column reads as the default |
| Import.ImportOriginRules | src-tauri/src/commands/import.rs:28-35 | each of the four named types has its own origin; every other type, liked and reposts included, is Other |
| Import.ImportNameRules | src-tauri/src/commands/import.rs:37-46 | on an Instagram link a post id wins, on a TikTok or YouTube link the platform's own id wins; in each of the four branches, with no such id, the last path segment is the name when there is one; with neither, Unknown; the name is empty only for an empty Instagram id |
| Import.IgEmptyId | src-tauri/src/commands/parse.rs:4-18 | an Instagram post link with an empty id part yields an empty id |
| Import.ImportNameCanBeEmpty | src-tauri/src/commands/import.rs:37-39 | so an imported Instagram row can get an empty name |
| Import.ImportHandleRules | src-tauri/src/commands/import.rs:48-50 | a set handle is kept; an empty or Unknown one takes the link's Instagram handle when there is one |
| Import.RecordDownload | src-tauri/src/commands/import.rs:19-65 | a record yields a download exactly when its link column is non-empty; the download is in the backlog with that link and an empty path |
| Import.InsertedAt | src-tauri/src/commands/import.rs:24-67 | a record adds one download exactly when it decoded, has a link and its insert succeeds |
| Import.InsertedShape | src-tauri/src/commands/import.rs:17-68 | there are never more inserts than records; every inserted download is a backlog row with a link |
| Import.SkippedRecord | src-tauri/src/commands/import.rs:24 | a record without a link adds nothing |
| Import.InsertedSnoc | src-tauri/src/commands/import.rs:17-68 | one more record adds exactly what its own insert adds |
| Import.FirstError | src-tauri/src/commands/import.rs:18 | the records before the result decoded, and the record at it did not |
| Import.StoreOne | src-tauri/src/commands/import.rs:67 | a successful insert extends the stored rows by that download and leaves the earlier rows alone |
| Import.ImportCsvToDb | src-tauri/src/commands/import.rs:8-71 | with no decoding error, returns the number of inserted downloads and stores exactly them; at the first decoding error, returns that error and keeps the rows inserted before it |
| Settings.DefaultDirectory | src-tauri/src/settings.rs:8-11 | the download folder, else the home folder, else the empty path |
| Settings.DefaultSettings | src-tauri/src/settings.rs:4-15 | no id, the default folder, CreateNew, video output, automatic downloads |
| Settings.LoadSettings | src-tauri/src/settings.rs:17-22 | the stored settings when both the database and the read succeed, else the defaults |
| Settings.DuplicateFlags | src-tauri/src/settings.rs:37-43 | Overwrite forces overwrites, CreateNew adds no flag, DoNothing forbids overwriting and resuming |
| Settings.DuplicateFlagsInjective | src-tauri/src/settings.rs:37-43 | the policy can be read back from its flags |
| Settings.LoadedFlags | src-tauri/src/settings.rs:17-43 | whatever is stored, the flags are one of the three fixed lists |
| Url.IsTiktokPhoto | src-tauri/src/utils/url.rs:4-6 | defines the TikTok photo test; stated by Url.TiktokPhotoIff |
| Url.IsInstagramPost | src-tauri/src/utils/url.rs:1-3 | defines the Instagram post test; stated by Url.InstagramPostIff |
| Url.ContainsOccurs | src-tauri/src/utils/url.rs:1-6 | the substring search is equivalent to "occurs at some position" |
| Url.InstagramPostIff | src-tauri/src/utils/url.rs:1-3 | a link is an Instagram post exactly when both fragments occur in it, anywhere and in any order |
| Url.TiktokPhotoIff | src-tauri/src/utils/url.rs:4-6 | a link is a TikTok photo exactly when both fragments occur in it |
| Url.EmptyMatchesNeither | src-tauri/src/utils/url.rs:1-6 | the empty link is neither |
| Url.ClassifiersKeptByExtension | src-tauri/src/utils/url.rs:1-6 | adding text before or after a matching link keeps it matching |
| Url.InstagramPostExample | src-tauri/src/utils/url.rs:1-3 | a typical post link is recognised |
| UiTypes.ContentTypeStr | src/types.rs:79-91 | defines the content-type tokens; UiTypes.ContentTypeStrRoundTrip and UiTypes.ContentTypeStrInjective state they read back and are distinct |
| UiTypes.PlatformStr | src/types.rs:70-77 | defines the platform tokens; UiTypes.PlatformStrRoundTrip and UiTypes.PlatformStrInjective state they read back and are distinct |
| UiTypes.PlatformStrRoundTrip | src/types.rs:70-77 | platform tokens are lower-case words and read back to their platform |
| UiTypes.PlatformStrInjective | src/types.rs:70-77 | different platforms have different tokens |
| UiTypes.ContentTypeStrRoundTrip | src/types.rs:79-91 | content-type tokens are lower-case words and read back to their type |
| UiTypes.ContentTypeStrInjective | src/types.rs:79-91 | the nine content types have nine different tokens |
| UiTypes.ContentTypeTokenRoundTrip | src/types.rs:12-25 | a token survives the trip through ContentType exactly when it is one of the nine known tokens; any other token comes back as `other` |
| UiTypes.PlatformTokenRoundTrip | src/types.rs:3-10 | exactly the four platform tokens decode, and they decode back to themselves |
| UiTypes.CapitalisedIsOther | src/types.rs:12-25 | tokens are case-sensitive: a capitalised name decodes as Other |
| Labels.CollectionTitle | src/pages/downloads.rs:64-72 | defines the collection title; Labels.CollectionTitleReadBack and Labels.CollectionTitleType state what it reads back to |
| Labels.IconForRow | src/pages/downloads.rs:121-138 | defines the row icon; stated by Labels.IconRules |
| Labels.ItemLabelForRow | src/pages/downloads.rs:74-103 | defines the item label per platform; Labels.ItemLabelIsWindow states it is adjacent path segments of the trimmed link |
| Labels.TiktokLabel | src/pages/downloads.rs:88-99 | defines the TikTok item label; stated by Labels.TiktokLabelCases and Labels.TiktokLabelIsWindow |
| Labels.InstagramLabel | src/pages/downloads.rs:77-87 | defines the Instagram item label; stated by Labels.InstagramLabelIsWindow and Labels.InstagramLabelOfPost |
| Labels.LastTwoPathSegments | src/pages/downloads.rs:53-61 | defines the fallback label; Labels.LastTwoResplit and Labels.LastTwoIsWindow state it is the last two path segments |
| Labels.UrlAfterDomain | src/pages/downloads.rs:45-51 | defines the path after the host; stated by Labels.UrlAfterDomainOf, Labels.UrlAfterDomainNoScheme and Labels.UrlAfterDomainStopsAtDoubleSlash |
| Labels.FindSchemeSeparator | src/pages/downloads.rs:46 | with no slash in the scheme, the first `//` is the one right after it |
| Labels.UrlAfterDomainOf | src/pages/downloads.rs:45-51 | `scheme://host/path` gives back `path` |
| Labels.UrlAfterDomainNoScheme | src/pages/downloads.rs:45-51 | a link without `//` has no scheme to strip |
| Labels.UrlAfterDomainStopsAtDoubleSlash | src/pages/downloads.rs:46 | a doubled slash in the path cuts the tail short |
| Labels.SegmentFacts | src/pages/downloads.rs:55 | path segments are never empty and have no slash |
| Labels.PairResplit | src/pages/downloads.rs:59 | two segments joined by a slash split back into those two |
| Labels.LastTwoResplit | src/pages/downloads.rs:53-61 | splitting the label again gives exactly the last two path segments, the only one, or none |
| Labels.MediaIndex | src/pages/downloads.rs:91 | the position found holds `photo` or `video` and no earlier one does; none when no segment is either |
| Labels.LastTwoIsWindow | src/pages/downloads.rs:53-61 | the fallback label splits into adjacent path segments |
| Labels.InstagramLabelIsWindow | src/pages/downloads.rs:77-87 | the Instagram label splits into adjacent path segments |
| Labels.TiktokLabelCases | src/pages/downloads.rs:88-99 | the TikTok label is the media segment and its successor, or the fallback when there is none |
| Labels.TiktokLabelIsWindow | src/pages/downloads.rs:88-99 | the TikTok label splits into adjacent path segments |
| Labels.ItemLabelIsWindow | src/pages/downloads.rs:74-103 | every item label splits into adjacent segments of the trimmed link's path: two of them, or all when there are fewer |
| Labels.PostLinkSegments | src/pages/downloads.rs:78-82 | the segments of `https://host/user/kind/id` are user, kind and id |
| Labels.PostLinkTrimmed | src/pages/downloads.rs:75 | such a link has no surrounding space, so trimming keeps it |
| Labels.InstagramLabelOfPost | src/pages/downloads.rs:77-87 | a post or reel link is labelled `kind/id` |
| Labels.ShownHandle | src/pages/downloads.rs:64-69 | a blank handle shows as Unknown; any other handle is shown unchanged |
| Labels.TokenHasNoBar | src/types.rs:79-91 | no content-type token contains a bar |
| Labels.CollectionTitleReadBack | src/pages/downloads.rs:64-72 | the text after the title's last bar is a space and the content-type token, and the title starts with the shown handle |
| Labels.CollectionTitleType | src/pages/downloads.rs:64-72 | two rows with the same collection title have the same content type |
| Labels.IsInstagramPhoto | src/pages/downloads.rs:107-113 | defines the Instagram photo test (the second path segment is `p`); its effect on the icon is stated by Labels.IconRules |
| Labels.IsTiktokPhoto | src/pages/downloads.rs:115-119 | defines the TikTok photo test (some path segment is `photo`); its effect on the icon is stated by Labels.IconRules |
| Labels.IconRules | src/pages/downloads.rs:121-138 | the row icon is never music; it is video exactly for a video row that no Pinterest, Instagram-photo or TikTok-photo rule turns into an image |
| Labels.ToggleIconForRow | src/pages/downloads.rs:12-23 | music exactly when the output format is `audio` in any letter case |
| Grouping.Sections | src/pages/downloads.rs:186-225 | defines the grouped and sorted listing; stated by Grouping.SectionsSound and Grouping.ListedRowOrigin |
| Grouping.KeysOf | src/pages/downloads.rs:187-205 | the seen-set holds every key of the rows passed so far |
| Grouping.Unique | src/pages/downloads.rs:186-205 | never keeps more rows than it is given; the lemmas below state which rows it keeps |
| Grouping.UniqueStep | src/pages/downloads.rs:203-205 | a row is kept exactly when its key has not been seen |
| Grouping.UniqueKeysDistinct | src/pages/downloads.rs:196-205 | no two kept rows share a key |
| Grouping.UniqueCoversKeys | src/pages/downloads.rs:196-205 | every input key has a kept row |
| Grouping.UniqueKeepsFirst | src/pages/downloads.rs:186-205 | the kept rows are exactly the first occurrences of each key, normalised, in input order |
| Grouping.FirstIsKept | src/pages/downloads.rs:203-211 | the first row with a key is kept |
| Grouping.SumSizesIsAllRows | src/pages/downloads.rs:225 | the summed collection sizes are the number of listed rows |
| Grouping.AddToCollectionRows | src/pages/downloads.rs:207-211 | adding a row appends it to its collection, or opens a new one, and nothing else |
| Grouping.AddToCollectionKeys | src/pages/downloads.rs:207-211 | collection keys stay distinct and gain exactly the row's key |
| Grouping.AddToCollectionKeyed | src/pages/downloads.rs:207-211 | every collection holds only rows of its key |
| Grouping.GroupAllSnoc | src/pages/downloads.rs:207-211 | grouping one more row adds it to its platform |
| Grouping.AddRowOther | src/pages/downloads.rs:207-211 | other platforms are untouched by an added row |
| Grouping.AddRowSame | src/pages/downloads.rs:207-211 | the row's platform gains exactly that row |
| Grouping.GroupAllSound | src/pages/downloads.rs:207-211 | each platform's collections hold exactly that platform's rows, each under its own key, with distinct keys |
| Grouping.LexLtTransitive | src/pages/downloads.rs:221 | string order is transitive |
| Grouping.LexTotal | src/pages/downloads.rs:221 | string order is total |
| Grouping.LexLeTransitive | src/pages/downloads.rs:221 | non-strict string order is transitive |
| Grouping.InsertByLabelPermutes | src/pages/downloads.rs:221 | inserting adds exactly the row |
| Grouping.InsertByLabelSorted | src/pages/downloads.rs:221 | inserting into a sorted collection keeps it sorted |
| Grouping.SortByLabelSorted | src/pages/downloads.rs:221 | sorting yields the same rows ordered by item label |
| Grouping.SortCollections | src/pages/downloads.rs:220-222 | every collection keeps its key and its number of rows |
| Grouping.SortedCollectionsKeep | src/pages/downloads.rs:220-222 | sorting keeps every collection's rows and key, and orders the rows |
| Grouping.GroupRows | src/pages/downloads.rs:186-222 | the loop with its seen-set, platform map and sorting computes Sections |
| Grouping.SectionsSound | src/pages/downloads.rs:186-225 | a platform is shown exactly when a kept row is on it; its collections are sorted, hold exactly its kept rows, are keyed and have distinct keys; the count is its number of kept rows |
| Grouping.AllRowsMember | src/pages/downloads.rs:219-225 | a listed row lies in some collection |
| Grouping.KeyedByMember | src/pages/downloads.rs:209 | a row of a collection has the collection's key |
| Grouping.ListedRowOrigin | src/pages/downloads.rs:186-212 | every listed row is on its platform and is the normalised first occurrence of its key in the input |
| Grouping.SectionRowOrigin | src/pages/downloads.rs:186-212 | every row at a position of a collection is on its platform, has the collection's key and is a first occurrence |
| DownloadsPage.DedupKey | src/pages/downloads.rs:196-202 | defines the de-duplication key; stated by DownloadsPage.DedupKeyReadBack, DownloadsPage.DedupKeySame and DownloadsPage.DedupKeyCollision |
| DownloadsPage.ShownRow | src/pages/downloads.rs:190-192 | only the handle may change; it is never blank, and a non-blank handle is kept |
| DownloadsPage.BarJoinSplit | src/pages/downloads.rs:196-202 | four bar-free parts joined with bars split back into those parts |
| DownloadsPage.LowerKeepsBar | src/pages/downloads.rs:199 | lower-casing neither adds nor removes bars |
| DownloadsPage.PlatformHasNoBar | src/types.rs:70-77 | platform tokens contain no bar |
| DownloadsPage.DedupKeyReadBack | src/pages/downloads.rs:196-202 | for bar-free handles and links the key splits back into platform, lower-cased trimmed handle, type and trimmed link |
| DownloadsPage.DedupKeySame | src/pages/downloads.rs:196-205 | for bar-free rows two keys are equal exactly when the four parts are |
| DownloadsPage.DedupKeyCollision | src/pages/downloads.rs:196-205 | two rows whose links differ can share a key when a handle ends in a bar and the type, and the other link starts with the type and a bar |
| DownloadsPage.RenderSection | src/pages/downloads.rs:186-225 | the grouping is Sections; each collection is sorted by item label; each platform counts its kept rows |
| DownloadsPage.SectionRowShown | src/pages/downloads.rs:186-211 | a listed row has a non-blank handle, belongs to its platform and collection, and is the first occurrence of its key |
| DownloadsPage.EffectiveFormat | src/pages/downloads.rs:468 | the local override for the link is preferred over the row's own format |
| DownloadsPage.RowIcon | src/pages/downloads.rs:469 | music exactly when the effective format is exactly `audio`; otherwise the row icon |
| DownloadsPage.NextFormat | src/pages/downloads.rs:479 | video exactly when the current format is `audio`; audio otherwise |
| DownloadsPage.ClickToggle | src/pages/downloads.rs:478-481 | the click sets the link's override to the next format and leaves the other links alone |
| DownloadsPage.ClickFlipsIcon | src/pages/downloads.rs:468-481 | a click turns a music icon into the row icon, and any other icon into music |
| DownloadsPage.ClickTwice | src/pages/downloads.rs:468-481 | two clicks restore the effective format exactly when it was `audio` or `video` |
| DownloadsPage.ClickKeepsOtherRows | src/pages/downloads.rs:478-481 | a click leaves the effective format of every other link unchanged |
| DownloadsPage.RowIconIsCaseSensitive | src/pages/downloads.rs:12-23 | for the format `AUDIO` the rendered icon is not music while toggle_icon_for_row would give music |
| App.OnDelete | src/app.rs:227-237 | the survivors are rows of the table that the delete spares, and every spared row survives; exact per arm in App.OnDeleteExact, order in App.OnDeleteKeepsOrder |
| App.OnDeleteExact | src/app.rs:227-237 | a row survives exactly when it is not on the deleted platform, not in the deleted (platform, handle, type) collection, and not the deleted link |
| App.CollectionDeleteSparesNeighbours | src/app.rs:233 | rows differing from the collection in platform, handle or type survive |
| App.OnDeleteKeepsOrder | src/app.rs:231-235 | deleting from a concatenation deletes from each part; survivors keep their order |
| App.OnDeleteAddsNothing | src/app.rs:231-235 | the survivors are a sub-multiset of the rows |
| App.OnDeleteSettles | src/app.rs:231-235 | deleting twice is deleting once, and a delete matching nothing changes nothing |
| LibraryPage.CollectionLinks | src/pages/library.rs:183 | defines the links gathered from a collection; LibraryPage.CollectionDeleteSound states what deleting them removes |
| LibraryPage.DeleteByLinks | src/pages/library.rs:138-142 | the survivors are rows of the table whose link is not gathered, and every such row survives; order in LibraryPage.DeleteByLinksKeepsOrder |
| LibraryPage.PlatformIconSrc | src/pages/library.rs:34-42 | defines the platform icon path; stated by LibraryPage.PlatformIconSrcKnown |
| LibraryPage.LibraryItemLabel | src/pages/library.rs:31-33 | defines the Library item label; stated by LibraryPage.LibraryItemLabelIsLastTwo and LibraryPage.LibraryLabelAgrees |
| LibraryPage.LibraryItemLabelIsLastTwo | src/pages/library.rs:31-33 | the Library label is the last two path segments of the untrimmed link |
| LibraryPage.LibraryLabelAgrees | src/pages/library.rs:31-33 | for YouTube and Pinterest rows the Library label of the trimmed link equals the Downloads label |
| LibraryPage.PlatformIconSrcKnown | src/pages/library.rs:34-42 | the icon path is non-empty exactly for the four platform tokens |
| LibraryPage.GroupDoneRows | src/pages/library.rs:73-98 | the grouping is Sections over (handle, type); every collection is sorted by the Library label; each platform counts its kept rows |
| LibraryPage.PlatformLinks | src/pages/library.rs:124-127 | one link per listed row of the platform |
| LibraryPage.DeleteByLinksExact | src/pages/library.rs:138-142 | a row survives exactly when its link is not in the list |
| LibraryPage.DeleteByLinksKeepsOrder | src/pages/library.rs:138-142 | survivors keep their order |
| LibraryPage.RowDeleteIsOneLinkDelete | src/pages/library.rs:269-273 | deleting a row is the list delete with that one link, and equals on_delete's Row case |
| LibraryPage.PlatformLinkIsShown | src/pages/library.rs:124-127 | every gathered link belongs to a row listed under the platform |
| LibraryPage.ShownLinkIsGathered | src/pages/library.rs:124-127 | every row listed under the platform has its link gathered |
| LibraryPage.PlatformDeleteExact | src/pages/library.rs:124-143 | after a platform delete, a row survives exactly when its link is not the link of any listed row of the platform |
| LibraryPage.CollectionDeleteSound | src/pages/library.rs:183-200 | every row a collection delete removes shares its link with a first-occurrence row of that platform listed in that collection |

## Left out

- I/O, SQLite errors and the Tauri runtime. `Database::new`, the database path,
  table creation, settings persistence and every `map_err` path that only
  forwards an I/O error are not modelled. A database handle is always present.
- The `dates`, `image_set_id` and `name` columns beyond what the modelled
  operations read.
- The SQL `ORDER BY ... COLLATE NOCASE` of the UI listings. `Database.Table.ListUi`
  returns rows in table order.
- `find_id_by_link` and `get_settings` are not part of this model, because their
  bodies are missing from the source. `Database.Table.FindIdByLink` models the
  lookup `ensure_row_for_url` relies on as "the first row with exactly this
  link". `Settings.LoadSettings` takes the stored result as a parameter.
- `set_status`, `set_status_by_id_conn`, `mark_download_done`,
  `run_download_with_progress` and `reset_stale_downloading_to_queued_conn` are
  not part of this model, because their bodies are missing from the source.
  - Which status writes fail is a parameter (a set of ids).
  - Manager.RunFrom and Manager.DownloadManager.Run take one set of failing queue
    writes and one set of failing start writes for the whole run of commands. A
    write that fails for one command and succeeds for a later one is not modelled.
  - The `changed` flag only chooses whether an event is sent, so it is not modelled.
  - A finished task returns through the `TaskFinished` command.
- The status a task reaches when it finishes (Done or Error) and the
  `mark_download_done` call: the manager model only records that the task leaves
  the running set.
- Downloader.NewRowReadsBack and Downloader.EnsureRowForUrl: the source builds
  the manual row with status `DownloadStatus::Queued`
  (src-tauri/src/commands/downloader.rs:134), a variant the status enum does not
  have (src-tauri/src/database.rs:37-41 lists Queue, Backlog and Done). The
  model stores Queue, the only queued status the table knows.
- Settings.DefaultSettings: `Settings::default()`
  (src-tauri/src/settings.rs:4-15) sets only the id, the download folder and
  the duplicate policy. The output format and the automatic-download flag are
  not written there; the model gives them their serde defaults, Video and true.
- Parse.CandidateFromLine: the archive-skip form (`[download] Skipping <name>: has
  already been recorded in the archive`) is modelled in the function, but no lemma
  states its result.
- Parse.CandidateFromLine: the source's tests on a trimmed line are byte tests.
  They are the length test `trimmed.len() > 2`, the slice `trimmed[2..]` and the
  `as_bytes()[1]` and `as_bytes()[2]` checks (src-tauri/src/commands/parse.rs:85-86,
  109-111). The model applies them to characters. The two agree when the first
  characters of the line are ASCII. A line whose second character is multi-byte
  makes Rust's `[2..]` panic; the model does not capture that panic.
- Manager.DownloadManager.Dispatch: the queue status the actor writes (`Queued`)
  is not the backend table's `queue` token. The model does not relate the
  actor's statuses to table rows.
- Tokio channels, `spawn`, `abort` and the emitted events. A started task is
  recorded as a `Job` with its overrides.
- `RefreshSettings` carries the freshly loaded bound as a parameter.
  `parallel_downloads` is not a field of the settings file in the source.
- `execute_download_job` after the decisions. The browser-cookie loop, yt-dlp
  and gallery-dl runs, the temporary-folder moves and the progress parsing run
  external tools and are out of scope. `Pipeline.ResolveJob` covers the
  decisions up to the destination folder.
- Path::join and display: a path is a string, and joining puts `/` between
  directory and name. Windows separators are not modelled.
- `ensure_parent_dir`: a missing folder is assumed to be created.
  `remove_file` on a missing target is a no-op, as in the source.
- Pipeline.StripLegacyFlags: the result can still contain a marker.
  `Pipeline.StripCanLeaveMarker` shows such a link. A marker-free result is
  proved only for links built as the Home page builds them
  (`Pipeline.StripRoundTrip`).
- CSV decoding in the import is not modelled, because the `csv` crate is not part of
  this model. The import takes already decoded records; each is either fields or
  a decode error.
- Import.InsertedShape: the inserted download's output format is Default. The
  source's import literal names no output format, and Default is that field's
  default.
- Import.ImportNameRules: an Instagram post link whose id part is empty gives an
  empty name. The model keeps this behaviour and states it
  (`Import.ImportNameCanBeEmpty`) rather than correcting it.
- Unicode: `to_lowercase`, `trim` and `eq_ignore_ascii_case` are modelled on
  ASCII letters and ASCII whitespace.
- The BTreeMap display order of platforms and collections in the grouping is
  not modelled.
  - Platforms form a Dafny `map`.
  - Collections are kept in order of first appearance, not key order.
  - Counts, membership and per-collection order are modelled.
- Grouping.SortByLabelSorted: `sort_by` is modelled on values as an insertion
  sort. The contract states sorted order and the same rows; stability is not
  stated.
- Labels.InstagramLabelOfPost: stated for links built from a host and three
  slash-free segments. Other Instagram links are covered by
  `Labels.ItemLabelIsWindow`.
- Rendering:
  - the HTML;
  - the expand/collapse state;
  - the "open folder" first links;
  - the backend `invoke` calls that the deletes and the toggle send after
    updating the page.
- `toggle_icon_for_row` is never called by the page. `Labels.ToggleIconForRow`
  models it, and `DownloadsPage.RowIconIsCaseSensitive` shows where it differs
  from the icon the page renders.
- LibraryPage.PlatformDeleteExact: deleting a platform also removes rows of
  other platforms that share a listed link. A duplicate whose link differs only
  in surrounding whitespace survives. The contract states exactly this.
