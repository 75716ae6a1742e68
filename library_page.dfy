/**
 * The library page (src/pages/library.rs): the done rows are grouped like a
 * downloads section, with collections keyed by (handle, type) and sorted by
 * the last two path segments of the untrimmed link; a platform or
 * collection delete removes every done row whose link was gathered from
 * what is shown, and a row delete removes every row with that link.
 */
module LibraryPage {
  import opened Common
  import opened Text
  import opened UiTypes
  import opened Labels
  import opened Grouping
  import opened DownloadsPage
  import opened App

  /* -------------------------------- helpers -------------------------------- */

  /** `item_label_for_row` of the library page: no trimming and no per-platform rule. */
  function LibraryItemLabel(row: ClipRow): string {
    LastTwoPathSegments(row.link)
  }

  /** The label splits back into the last two path segments of the link (fewer when the path has fewer). */
  lemma LibraryItemLabelIsLastTwo(row: ClipRow)
    ensures var parts := PathSegments(row.link);
      && var n := if |parts| < 2 then |parts| else 2;
      && Segments(LibraryItemLabel(row), '/') == parts[|parts| - n..]
  {
    LastTwoResplit(row.link);
  }

  /** On YouTube and Pinterest rows the downloads page shows the library label of the trimmed link. */
  lemma LibraryLabelAgrees(row: ClipRow)
    requires row.platform == Youtube || row.platform == Pinterest
    ensures ItemLabelForRow(row) == LibraryItemLabel(row.(link := Trim(row.link)))
  {
  }

  /** `platform_icon_src`. */
  function PlatformIconSrc(p: string): string {
    if p == "instagram" then "public/instagram.webp"
    else if p == "pinterest" then "public/pinterest.png"
    else if p == "tiktok" then "public/tiktok.webp"
    else if p == "youtube" then "public/youtube.webp"
    else ""
  }

  /** Every platform label has an icon, and nothing else does. */
  lemma PlatformIconSrcKnown(s: string)
    ensures PlatformIconSrc(s) != "" <==> PlatformFromToken(s).Some?
  {
  }

  /* -------------------------------- grouping ------------------------------- */

  /** A library collection is keyed by (handle, type). */
  type LibraryKey = (string, string)

  function LibraryKeyOf(r: ClipRow): LibraryKey {
    (r.handle, ContentTypeStr(r.contentType))
  }

  const LibraryLayout: Layout<LibraryKey, ClipRow> :=
    Layout(ShownRow, DedupKey, PlatformLabel, LibraryKeyOf, LibraryItemLabel)

  /** The page's grouping of the done rows: collections ascending by label, `items_count` the platform's de-duplicated rows. */
  method GroupDoneRows(doneRows: seq<ClipRow>) returns (groups: Groups<LibraryKey, ClipRow>)
    ensures groups == Sections(doneRows, LibraryLayout)
    ensures forall pl :: pl in groups ==>
      && (forall i :: 0 <= i < |groups[pl]| ==> SortedBy(groups[pl][i].rows, LibraryItemLabel))
      && SumSizes(groups[pl]) == |RowsOn(Unique(doneRows, LibraryLayout), LibraryLayout, pl)|
  {
    groups := GroupRows(doneRows, LibraryLayout);
    forall pl | pl in groups
      ensures forall i :: 0 <= i < |groups[pl]| ==> SortedBy(groups[pl][i].rows, LibraryItemLabel)
      ensures SumSizes(groups[pl]) == |RowsOn(Unique(doneRows, LibraryLayout), LibraryLayout, pl)|
    {
      SectionsSound(doneRows, LibraryLayout, pl);
    }
  }

  /* -------------------------------- deletes -------------------------------- */

  /** `platform_links`: the links of a platform's rows, collection after collection. */
  function PlatformLinks(cs: seq<Collection<LibraryKey, ClipRow>>): (links: seq<string>)
    ensures |links| == SumSizes(cs)
  {
    SumSizesIsAllRows(cs);
    Map(AllRows(cs), (r: ClipRow) => r.link)
  }

  /** `links_for_collection`. */
  function CollectionLinks(c: Collection<LibraryKey, ClipRow>): seq<string> {
    Map(c.rows, (r: ClipRow) => r.link)
  }

  /** The optimistic delete: the rows whose link is not among the gathered links. */
  function DeleteByLinks(rows: seq<ClipRow>, links: seq<string>): (r: seq<ClipRow>)
    ensures |r| <= |rows|
    ensures forall k :: 0 <= k < |r| ==> r[k] in rows && r[k].link !in links
    ensures forall k :: 0 <= k < |rows| && rows[k].link !in links ==> rows[k] in r
  {
    Filter(rows, (r: ClipRow) => r.link !in links)
  }

  /** Exactly the rows with a gathered link go, the rest keep their order, and nothing is added. */
  lemma DeleteByLinksExact(rows: seq<ClipRow>, links: seq<string>)
    ensures forall r :: r in DeleteByLinks(rows, links) <==> r in rows && r.link !in links
    ensures multiset(DeleteByLinks(rows, links)) <= multiset(rows)
  {
    var res := DeleteByLinks(rows, links);
    forall r | r in res
      ensures r in rows && r.link !in links
    {
      var k :| 0 <= k < |res| && res[k] == r;
    }
    forall r | r in rows && r.link !in links
      ensures r in res
    {
      var k :| 0 <= k < |rows| && rows[k] == r;
    }
    FilterSubMultiset(rows, (r: ClipRow) => r.link !in links);
  }

  lemma DeleteByLinksKeepsOrder(a: seq<ClipRow>, b: seq<ClipRow>, links: seq<string>)
    ensures DeleteByLinks(a + b, links) == DeleteByLinks(a, links) + DeleteByLinks(b, links)
  {
    FilterAppend(a, b, (r: ClipRow) => r.link !in links);
  }

  /** The library's row delete is the application's row delete, and the delete of one gathered link. */
  lemma RowDeleteIsOneLinkDelete(rows: seq<ClipRow>, link: string)
    ensures OnDelete(rows, DeleteRow(link)) == DeleteByLinks(rows, [link])
  {
    FilterSame(rows, (r: ClipRow) => Survives(DeleteRow(link), r), (r: ClipRow) => r.link !in [link]);
  }

  /** `link` is the link of a done row on platform `pl` that is the first with its key. */
  ghost predicate ShownLinkOn(doneRows: seq<ClipRow>, pl: string, link: string) {
    exists n :: 0 <= n < |doneRows| && PlatformStr(doneRows[n].platform) == pl
      && FirstOfKey(doneRows, n, LibraryLayout) && doneRows[n].link == link
  }

  /** A link gathered for a platform is the link of a first-of-key done row on it. */
  lemma PlatformLinkIsShown(doneRows: seq<ClipRow>, pl: string, link: string)
    requires pl in Sections(doneRows, LibraryLayout)
    requires link in PlatformLinks(Sections(doneRows, LibraryLayout)[pl])
    ensures ShownLinkOn(doneRows, pl, link)
  {
    var all := AllRows(Sections(doneRows, LibraryLayout)[pl]);
    var links := Map(all, (r: ClipRow) => r.link);
    var k :| 0 <= k < |links| && links[k] == link;
    var x := all[k];
    ListedRowOrigin(doneRows, LibraryLayout, pl, x);
    var n :| 0 <= n < |doneRows| && x == ShownRow(doneRows[n]) && FirstOfKey(doneRows, n, LibraryLayout);
    assert x.link == doneRows[n].link && x.platform == doneRows[n].platform;
  }

  /** The link of every first-of-key done row on a platform is gathered for it. */
  lemma ShownLinkIsGathered(doneRows: seq<ClipRow>, pl: string, n: nat)
    requires pl in Sections(doneRows, LibraryLayout)
    requires n < |doneRows| && PlatformStr(doneRows[n].platform) == pl && FirstOfKey(doneRows, n, LibraryLayout)
    ensures doneRows[n].link in PlatformLinks(Sections(doneRows, LibraryLayout)[pl])
  {
    var cs := Sections(doneRows, LibraryLayout)[pl];
    var kept := Unique(doneRows, LibraryLayout);
    var x := ShownRow(doneRows[n]);
    FirstIsKept(doneRows, LibraryLayout, n);
    var m :| 0 <= m < |kept| && kept[m] == x;
    assert PlatformLabel(x) == pl;
    assert x in RowsOn(kept, LibraryLayout, pl);
    SectionsSound(doneRows, LibraryLayout, pl);
    assert x in multiset(AllRows(cs));
    var all := AllRows(cs);
    var k :| 0 <= k < |all| && all[k] == x;
    assert Map(all, (r: ClipRow) => r.link)[k] == x.link;
  }

  /**
   * A platform delete keeps exactly the done rows whose link is not the link
   * of a first-of-key row on that platform, so rows of other platforms that
   * share such a link go too.
   */
  lemma PlatformDeleteExact(doneRows: seq<ClipRow>, pl: string)
    requires pl in Sections(doneRows, LibraryLayout)
    ensures forall r :: r in DeleteByLinks(doneRows, PlatformLinks(Sections(doneRows, LibraryLayout)[pl])) <==>
      r in doneRows && !ShownLinkOn(doneRows, pl, r.link)
  {
    var links := PlatformLinks(Sections(doneRows, LibraryLayout)[pl]);
    DeleteByLinksExact(doneRows, links);
    forall link
      ensures link in links <==> ShownLinkOn(doneRows, pl, link)
    {
      if link in links {
        PlatformLinkIsShown(doneRows, pl, link);
      }
      if ShownLinkOn(doneRows, pl, link) {
        var n :| 0 <= n < |doneRows| && PlatformStr(doneRows[n].platform) == pl
          && FirstOfKey(doneRows, n, LibraryLayout) && doneRows[n].link == link;
        ShownLinkIsGathered(doneRows, pl, n);
      }
    }
  }

  /**
   * A collection delete removes the done rows sharing a link with a row of
   * the collection: each such row is the first done row with its key, on the
   * collection's platform and with the collection's key.
   */
  lemma CollectionDeleteSound(doneRows: seq<ClipRow>, pl: string, i: nat, r: ClipRow)
    requires pl in Sections(doneRows, LibraryLayout) && i < |Sections(doneRows, LibraryLayout)[pl]|
    requires r in doneRows && r !in DeleteByLinks(doneRows, CollectionLinks(Sections(doneRows, LibraryLayout)[pl][i]))
    ensures exists n :: (0 <= n < |doneRows| && doneRows[n].link == r.link && FirstOfKey(doneRows, n, LibraryLayout)
      && PlatformStr(doneRows[n].platform) == pl
      && LibraryKeyOf(ShownRow(doneRows[n])) == Sections(doneRows, LibraryLayout)[pl][i].key)
  {
    var c := Sections(doneRows, LibraryLayout)[pl][i];
    DeleteByLinksExact(doneRows, CollectionLinks(c));
    var links := CollectionLinks(c);
    var j :| 0 <= j < |links| && links[j] == r.link;
    SectionRowOrigin(doneRows, LibraryLayout, pl, i, j);
    var n :| 0 <= n < |doneRows| && c.rows[j] == ShownRow(doneRows[n]) && FirstOfKey(doneRows, n, LibraryLayout);
    assert c.rows[j].link == doneRows[n].link && c.rows[j].platform == doneRows[n].platform;
  }
}
