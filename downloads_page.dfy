/**
 * The downloads page's section step and format toggle
 * (src/pages/downloads.rs): `render_section` shows a section's rows with a
 * blank handle replaced by `Unknown`, drops every row whose
 * `platform|handle|type|link` key (handle lower-cased and trimmed, link
 * trimmed) was already seen, groups the rest by platform and by
 * (handle, type, platform, content type), and sorts every collection by
 * item label. The row icon follows a local map of format overrides that a
 * click flips between `audio` and `video`.
 */
module DownloadsPage {
  import opened Common
  import opened Text
  import opened UiTypes
  import opened Labels
  import opened Grouping

  /* ------------------------------- the rows ------------------------------- */

  /** The row as grouped: only a blank handle changes, to `Unknown`. */
  function ShownRow(r: ClipRow): (s: ClipRow)
    ensures s.(handle := r.handle) == r
    ensures Trim(s.handle) != []
    ensures Trim(r.handle) != [] ==> s == r
  {
    TrimNoSpace("Unknown");
    r.(handle := ShownHandle(r.handle))
  }

  /** The platform label a row is grouped under. */
  function PlatformLabel(r: ClipRow): string {
    PlatformStr(r.platform)
  }

  /** Four parts joined with bars. */
  function BarJoin(p: string, h: string, t: string, k: string): string {
    p + ['|'] + (h + ['|'] + (t + ['|'] + k))
  }

  /** The de-duplication key `platform|handle|type|link`. */
  function DedupKey(r: ClipRow): string {
    BarJoin(PlatformStr(r.platform), Trim(ToLower(r.handle)), ContentTypeStr(r.contentType), Trim(r.link))
  }

  /** Four separator-free parts joined with the separator split back into those parts. */
  lemma SplitFour(p: string, h: string, t: string, k: string, c: char)
    requires c !in p && c !in h && c !in t && c !in k
    ensures Split(p + [c] + (h + [c] + (t + [c] + k)), c) == [p, h, t, k]
  {
    SplitNoSep(k, c);
    SplitCons(t, c, k);
    SplitCons(h, c, t + [c] + k);
    SplitCons(p, c, h + [c] + (t + [c] + k));
    assert [p] + ([h] + ([t] + [k])) == [p, h, t, k];
  }

  /** Parts without bars come back from the joined key. */
  lemma BarJoinSplit(p: string, h: string, t: string, k: string)
    requires '|' !in p && '|' !in h && '|' !in t && '|' !in k
    ensures Split(BarJoin(p, h, t, k), '|') == [p, h, t, k]
  {
    SplitFour(p, h, t, k, '|');
  }

  /** A bar moved from the front of the link to the end of the handle gives the same key. */
  lemma BarJoinShift(p: string, h: string, t: string, y: string)
    ensures BarJoin(p, h, t, t + ['|'] + y) == BarJoin(p, h + ['|'] + t, t, y)
  {
  }

  lemma LowerKeepsBar(s: string)
    requires '|' !in s
    ensures '|' !in ToLower(s)
  {
    var t := ToLower(s);
    assert forall k :: 0 <= k < |t| ==> t[k] == LowerChar(s[k]) && s[k] != '|';
  }

  lemma PlatformHasNoBar(p: Platform)
    ensures '|' !in PlatformStr(p)
  {
    PlatformStrRoundTrip(p);
    var s := PlatformStr(p);
    assert forall k :: 0 <= k < |s| ==> s[k] != '|';
  }

  /** When neither the handle nor the link holds a bar, the key splits back into its four parts. */
  lemma DedupKeyReadBack(r: ClipRow)
    requires '|' !in r.handle && '|' !in r.link
    ensures Split(DedupKey(r), '|') == [PlatformStr(r.platform), Trim(ToLower(r.handle)), ContentTypeStr(r.contentType), Trim(r.link)]
  {
    PlatformHasNoBar(r.platform);
    LowerKeepsBar(r.handle);
    TrimNotIn(ToLower(r.handle), '|');
    TokenHasNoBar(r.contentType);
    TrimNotIn(r.link, '|');
    BarJoinSplit(PlatformStr(r.platform), Trim(ToLower(r.handle)), ContentTypeStr(r.contentType), Trim(r.link));
  }

  /**
   * Two rows without bars in handle or link have the same key exactly when
   * they agree on platform, lower-cased trimmed handle, content type and
   * trimmed link.
   */
  lemma DedupKeySame(r1: ClipRow, r2: ClipRow)
    requires '|' !in r1.handle && '|' !in r1.link
    requires '|' !in r2.handle && '|' !in r2.link
    ensures DedupKey(r1) == DedupKey(r2) <==>
      && r1.platform == r2.platform
      && Trim(ToLower(r1.handle)) == Trim(ToLower(r2.handle))
      && r1.contentType == r2.contentType
      && Trim(r1.link) == Trim(r2.link)
  {
    if DedupKey(r1) == DedupKey(r2) {
      DedupKeyReadBack(r1);
      DedupKeyReadBack(r2);
      PlatformStrInjective(r1.platform, r2.platform);
      ContentTypeStrInjective(r1.contentType, r2.contentType);
    }
  }

  /**
   * Handles and links are free text, so two rows with different links can
   * share a key: a handle ending in `|type` and a link starting with
   * `type|` make the same bars.
   */
  lemma DedupKeyCollision(r1: ClipRow, r2: ClipRow)
    requires r1.platform == r2.platform && r1.contentType == r2.contentType
    requires Trim(ToLower(r2.handle)) == Trim(ToLower(r1.handle)) + ['|'] + ContentTypeStr(r1.contentType)
    requires Trim(r1.link) == ContentTypeStr(r1.contentType) + ['|'] + Trim(r2.link)
    ensures DedupKey(r1) == DedupKey(r2)
    ensures Trim(r1.link) != Trim(r2.link)
  {
    BarJoinShift(PlatformStr(r1.platform), Trim(ToLower(r1.handle)), ContentTypeStr(r1.contentType), Trim(r2.link));
  }

  /* ------------------------------ the sections ----------------------------- */

  /** A downloads collection is keyed by (handle, type, platform, content type). */
  type SectionKey = (string, string, Platform, ContentType)

  function SectionKeyOf(r: ClipRow): SectionKey {
    (r.handle, ContentTypeStr(r.contentType), r.platform, r.contentType)
  }

  const DownloadsLayout: Layout<SectionKey, ClipRow> :=
    Layout(ShownRow, DedupKey, PlatformLabel, SectionKeyOf, ItemLabelForRow)

  /**
   * The grouping of `render_section`: every collection ascending by item
   * label, and a platform's bookmark count is the number of its rows that
   * survive de-duplication.
   */
  method RenderSection(rowsIn: seq<ClipRow>) returns (groups: Groups<SectionKey, ClipRow>)
    ensures groups == Sections(rowsIn, DownloadsLayout)
    ensures forall pl :: pl in groups ==>
      && (forall i :: 0 <= i < |groups[pl]| ==> SortedBy(groups[pl][i].rows, ItemLabelForRow))
      && SumSizes(groups[pl]) == |RowsOn(Unique(rowsIn, DownloadsLayout), DownloadsLayout, pl)|
  {
    groups := GroupRows(rowsIn, DownloadsLayout);
    forall pl | pl in groups
      ensures forall i :: 0 <= i < |groups[pl]| ==> SortedBy(groups[pl][i].rows, ItemLabelForRow)
      ensures SumSizes(groups[pl]) == |RowsOn(Unique(rowsIn, DownloadsLayout), DownloadsLayout, pl)|
    {
      SectionsSound(rowsIn, DownloadsLayout, pl);
    }
  }

  /**
   * A shown row has a non-blank handle, the platform of its section, the
   * handle, type and platform of its collection's key, and it is the first
   * row of the section input with its key (with the blank handle replaced).
   */
  lemma SectionRowShown(rowsIn: seq<ClipRow>, pl: string, i: nat, j: nat)
    requires pl in Sections(rowsIn, DownloadsLayout)
    requires i < |Sections(rowsIn, DownloadsLayout)[pl]|
    requires j < |Sections(rowsIn, DownloadsLayout)[pl][i].rows|
    ensures Trim(Sections(rowsIn, DownloadsLayout)[pl][i].rows[j].handle) != []
    ensures PlatformStr(Sections(rowsIn, DownloadsLayout)[pl][i].rows[j].platform) == pl
    ensures SectionKeyOf(Sections(rowsIn, DownloadsLayout)[pl][i].rows[j]) == Sections(rowsIn, DownloadsLayout)[pl][i].key
    ensures FirstShown(rowsIn, DownloadsLayout, Sections(rowsIn, DownloadsLayout)[pl][i].rows[j])
  {
    SectionRowOrigin(rowsIn, DownloadsLayout, pl, i, j);
    var x := Sections(rowsIn, DownloadsLayout)[pl][i].rows[j];
    var n :| 0 <= n < |rowsIn| && x == ShownRow(rowsIn[n]) && FirstOfKey(rowsIn, n, DownloadsLayout);
  }

  /* --------------------------- the format toggle --------------------------- */

  /** The format a row shows: the local override for its link, else the row's own. */
  function EffectiveFormat(overrides: map<string, string>, row: ClipRow): (fmt: Option<string>)
    ensures row.link in overrides ==> fmt == Some(overrides[row.link])
    ensures row.link !in overrides ==> fmt == row.outputFormat
  {
    if row.link in overrides then Some(overrides[row.link]) else row.outputFormat
  }

  /** The row icon: music exactly for the effective format `audio` (letter case counts), else `icon_for_row`. */
  function RowIcon(overrides: map<string, string>, row: ClipRow): (icon: Icon)
    ensures icon == MusicIcon <==> EffectiveFormat(overrides, row) == Some("audio")
    ensures icon != MusicIcon ==> icon == IconForRow(row)
  {
    IconRules(row);
    if EffectiveFormat(overrides, row) == Some("audio") then MusicIcon else IconForRow(row)
  }

  /** The format a click asks for: `video` after `audio`, `audio` after anything else or nothing. */
  function NextFormat(current: Option<string>): (next: string)
    ensures next == "video" <==> current == Some("audio")
    ensures next == "audio" <==> current != Some("audio")
  {
    if current == Some("audio") then "video" else "audio"
  }

  /** A click records the next format for the row's link. */
  function ClickToggle(overrides: map<string, string>, row: ClipRow): (m: map<string, string>)
    ensures m.Keys == overrides.Keys + {row.link}
    ensures forall k :: k in overrides && k != row.link ==> m[k] == overrides[k]
    ensures EffectiveFormat(m, row) == Some(NextFormat(EffectiveFormat(overrides, row)))
  {
    overrides[row.link := NextFormat(EffectiveFormat(overrides, row))]
  }

  /** Every click flips the row's icon between music and its media icon. */
  lemma ClickFlipsIcon(overrides: map<string, string>, row: ClipRow)
    ensures RowIcon(ClickToggle(overrides, row), row) == MusicIcon <==> RowIcon(overrides, row) != MusicIcon
  {
  }

  /** Two clicks bring back the shown format exactly when it was `audio` or `video`. */
  lemma ClickTwice(overrides: map<string, string>, row: ClipRow)
    ensures var twice := ClickToggle(ClickToggle(overrides, row), row);
      EffectiveFormat(twice, row) == EffectiveFormat(overrides, row) <==>
        EffectiveFormat(overrides, row) in {Some("audio"), Some("video")}
  {
  }

  /** A click leaves the format and icon of every row with another link unchanged. */
  lemma ClickKeepsOtherRows(overrides: map<string, string>, row: ClipRow, other: ClipRow)
    requires other.link != row.link
    ensures EffectiveFormat(ClickToggle(overrides, row), other) == EffectiveFormat(overrides, other)
    ensures RowIcon(ClickToggle(overrides, row), other) == RowIcon(overrides, other)
  {
  }

  /** The shown icon ignores letter case no more: `AUDIO` gives music in `toggle_icon_for_row` but not here. */
  lemma RowIconIsCaseSensitive(row: ClipRow)
    requires row.outputFormat == Some("AUDIO")
    ensures RowIcon(map[], row) != MusicIcon
    ensures ToggleIconForRow(row) == MusicIcon
  {
    assert ToLower("AUDIO") == "audio";
  }
}
