/**
 * `import_csv_to_db` (src-tauri/src/commands/import.rs): each decoded CSV record
 * becomes a backlog row; records without a link are skipped and the count is
 * the number of successful inserts.
 */
module Import {
  import opened Common
  import opened Text
  import opened Database
  import opened Parse

  /** `rec.get(i).unwrap_or(default)`. */
  function Field(rec: seq<string>, i: nat, default: string): (f: string)
    ensures i < |rec| ==> f == rec[i]
    ensures i >= |rec| ==> f == default
  {
    if i < |rec| then rec[i] else default
  }

  /** The origin for a lower-cased type column: four named origins, everything else (`liked`, `reposts` too) is Other. */
  function ImportOrigin(typ: string): Origin {
    if typ == "recommendation" then Recommendation
    else if typ == "playlist" then Playlist
    else if typ == "profile" then Profile
    else if typ == "bookmarks" then Bookmarks
    else Other
  }

  /** Each of the four named types has its own origin, and only they do. */
  lemma ImportOriginRules(typ: string)
    ensures ImportOrigin(typ) == Recommendation <==> typ == "recommendation"
    ensures ImportOrigin(typ) == Playlist <==> typ == "playlist"
    ensures ImportOrigin(typ) == Profile <==> typ == "profile"
    ensures ImportOrigin(typ) == Bookmarks <==> typ == "bookmarks"
    ensures ImportOrigin(typ) == Other <==> typ !in {"recommendation", "playlist", "profile", "bookmarks"}
  {
  }

  /**
   * The name of an imported row: the platform's own id for the link (Instagram
   * post, TikTok post, YouTube video), else the last path segment, else
   * `Unknown`. Only an empty Instagram id can make it empty.
   */
  function ImportName(link: string): string {
    if Contains(link, IgMarker) then
      match IgHandleAndId(link).1
      case Some(id) => id
      case None => LastSegment(link).GetOr("Unknown")
    else if Contains(link, "tiktok.com/") then
      TikTokIdFromUrl(link).Or(LastSegment(link)).GetOr("Unknown")
    else if Contains(link, "youtube.com/") || Contains(link, "youtu.be/") then
      YoutubeIdFromUrl(link).Or(LastSegment(link)).GetOr("Unknown")
    else
      LastSegment(link).GetOr("Unknown")
  }

  /** The id wins over the fallbacks, the platforms are tried in order, and only an empty Instagram id gives an empty name. */
  lemma ImportNameRules(link: string)
    ensures ImportName(link) == [] ==> IgHandleAndId(link).1 == Some([])
    ensures Contains(link, IgMarker) && IgHandleAndId(link).1.Some? ==> ImportName(link) == IgHandleAndId(link).1.value
    ensures (!Contains(link, IgMarker) && Contains(link, "tiktok.com/") && TikTokIdFromUrl(link).Some?)
      ==> ImportName(link) == TikTokIdFromUrl(link).value
    ensures (!Contains(link, IgMarker) && !Contains(link, "tiktok.com/")
      && (Contains(link, "youtube.com/") || Contains(link, "youtu.be/")) && YoutubeIdFromUrl(link).Some?)
      ==> ImportName(link) == YoutubeIdFromUrl(link).value
    ensures (Contains(link, IgMarker) && IgHandleAndId(link).1.None? && LastSegment(link).Some?)
      ==> ImportName(link) == LastSegment(link).value
    ensures (!Contains(link, IgMarker) && Contains(link, "tiktok.com/") && TikTokIdFromUrl(link).None? && LastSegment(link).Some?)
      ==> ImportName(link) == LastSegment(link).value
    ensures (!Contains(link, IgMarker) && !Contains(link, "tiktok.com/")
      && (Contains(link, "youtube.com/") || Contains(link, "youtu.be/")) && YoutubeIdFromUrl(link).None? && LastSegment(link).Some?)
      ==> ImportName(link) == LastSegment(link).value
    ensures (!Contains(link, IgMarker) && !Contains(link, "tiktok.com/") && !Contains(link, "youtube.com/")
      && !Contains(link, "youtu.be/") && LastSegment(link).Some?)
      ==> ImportName(link) == LastSegment(link).value
    ensures (LastSegment(link).None? && (Contains(link, IgMarker) ==> IgHandleAndId(link).1.None?)
      && TikTokIdFromUrl(link).None? && YoutubeIdFromUrl(link).None?) ==> ImportName(link) == "Unknown"
  {
  }

  /** `handle/kind//x`: a post path whose id part is empty. */
  function EmptyIdPath(handle: string, kind: string, x: string): string {
    handle + ['/'] + (kind + ['/'] + (['/'] + x))
  }

  /** An Instagram post link with an empty id part yields an empty id. */
  lemma IgEmptyId(prefix: string, handle: string, kind: string, x: string)
    requires Find(prefix + IgMarker, IgMarker) == Some(|prefix|)
    requires handle != [] && '/' !in handle && x != [] && '/' !in x
    requires kind == "reel" || kind == "p"
    ensures IgHandleAndId(prefix + IgMarker + EmptyIdPath(handle, kind, x)) == (Some(handle), Some([]))
  {
    var path := EmptyIdPath(handle, kind, x);
    PostKindPlain(kind);
    EmptyIdLinkParts(prefix, handle, kind, x);
    EmptyIdParts(handle, kind, x);
  }

  lemma EmptyIdLinkParts(prefix: string, handle: string, kind: string, x: string)
    requires Find(prefix + IgMarker, IgMarker) == Some(|prefix|)
    requires handle != [] && '/' !in handle && x != [] && '/' !in x
    ensures IgPathParts(prefix + IgMarker + EmptyIdPath(handle, kind, x)) == Some(Split(EmptyIdPath(handle, kind, x), '/'))
  {
    IgPathPartsOf(prefix, EmptyIdPath(handle, kind, x));
    EmptyIdTrimmed(handle, kind, x);
  }

  /** `handle/kind//x` neither starts nor ends with a slash, so trimming slashes keeps it. */
  lemma EmptyIdTrimmed(handle: string, kind: string, x: string)
    requires handle != [] && '/' !in handle && x != [] && '/' !in x
    ensures TrimChars(EmptyIdPath(handle, kind, x), {'/'}) == EmptyIdPath(handle, kind, x)
  {
    var s := EmptyIdPath(handle, kind, x);
    assert s[0] == handle[0];
    assert s[|s| - 1] == x[|x| - 1];
    assert s == s + [];
    TrimSlashesOf(s, []);
  }

  /** The `/`-parts of `handle/kind//x`. */
  lemma EmptyIdParts(handle: string, kind: string, x: string)
    requires '/' !in handle && '/' !in kind && '/' !in x
    ensures var parts := Split(EmptyIdPath(handle, kind, x), '/');
      |parts| == 4 && parts[0] == handle && parts[1] == kind && parts[2] == []
  {
    EmptyTail(kind, x);
    SplitCons(handle, '/', kind + ['/'] + (['/'] + x));
  }

  lemma EmptyTail(kind: string, x: string)
    requires '/' !in kind && '/' !in x
    ensures var parts := Split(kind + ['/'] + (['/'] + x), '/');
      |parts| == 3 && parts[0] == kind && parts[1] == []
  {
    SplitNoSep(x, '/');
    SplitCons([], '/', x);
    assert [] + ['/'] + x == ['/'] + x;
    SplitCons(kind, '/', ['/'] + x);
  }

  /** So an imported Instagram row can get an empty name. */
  lemma ImportNameCanBeEmpty(prefix: string, handle: string, kind: string, x: string)
    requires Find(prefix + IgMarker, IgMarker) == Some(|prefix|)
    requires handle != [] && '/' !in handle && x != [] && '/' !in x
    requires kind == "reel" || kind == "p"
    ensures ImportName(prefix + IgMarker + EmptyIdPath(handle, kind, x)) == []
  {
    IgEmptyId(prefix, handle, kind, x);
  }

  /** The handle column, replaced by the Instagram handle of the link only when it is empty or `Unknown`. */
  function ImportHandle(handle: string, link: string): string {
    if (handle == [] || handle == "Unknown") && Contains(link, IgMarker) then
      match IgHandleAndId(link).0
      case Some(h) => h
      case None => handle
    else handle
  }

  /** A set handle is kept; an empty or `Unknown` one is replaced by the link's Instagram handle when it has one. */
  lemma ImportHandleRules(handle: string, link: string)
    ensures handle != [] && handle != "Unknown" ==> ImportHandle(handle, link) == handle
    ensures IgHandleAndId(link).0.None? ==> ImportHandle(handle, link) == handle
    ensures (handle == [] || handle == "Unknown") && IgHandleAndId(link).0.Some? ==> ImportHandle(handle, link) == IgHandleAndId(link).0.value
  {
  }

  /**
   * The download one record (`Platform,Type,Handle,Media,link`) becomes, none
   * when its link is empty. The snapshot's import builds no output format; the
   * model stores the default one.
   */
  function RecordDownload(rec: seq<string>): (d: Option<Download>)
    ensures d.None? <==> Field(rec, 4, "") == []
    ensures d.Some? ==> d.value.link == Field(rec, 4, "") && d.value.status == Backlog && d.value.path == []
  {
    var link := Field(rec, 4, "");
    if link == [] then None
    else
      Some(Download(PlatformFrom(Field(rec, 0, "")), ImportName(link), MediaFrom(Field(rec, 3, "")),
                    ImportHandle(Field(rec, 2, "Unknown"), link), ImportOrigin(ToLower(Field(rec, 1, ""))),
                    link, DefaultFormat, Backlog, []))
  }

  /** The download inserted for record number `i`, when its link is set and its insert succeeds. */
  function InsertedAt(rec: Result<seq<string>, string>, i: int, insertFails: set<int>): (ds: seq<Download>)
    ensures |ds| <= 1
    ensures |ds| == 1 <==> rec.Ok? && Field(rec.value, 4, "") != [] && i !in insertFails
  {
    if rec.Ok? && RecordDownload(rec.value).Some? && i !in insertFails then [RecordDownload(rec.value).value] else []
  }

  /** The downloads the import inserts for these records, in order. */
  function Inserted(records: seq<Result<seq<string>, string>>, insertFails: set<int>): (ds: seq<Download>)
    decreases |records|
  {
    if records == [] then []
    else Inserted(records[..|records| - 1], insertFails) + InsertedAt(records[|records| - 1], |records| - 1, insertFails)
  }

  /** Never more inserts than records; every inserted download is a backlog row with a link and a stored origin from the type column. */
  lemma {:induction false} InsertedShape(records: seq<Result<seq<string>, string>>, insertFails: set<int>)
    ensures |Inserted(records, insertFails)| <= |records|
    ensures forall d :: d in Inserted(records, insertFails) ==> d.status == Backlog && d.link != [] && d.outputFormat == DefaultFormat
    decreases |records|
  {
    if records != [] {
      InsertedShape(records[..|records| - 1], insertFails);
    }
  }

  /** A record without a link adds nothing, whatever the insert would have done. */
  lemma SkippedRecord(records: seq<Result<seq<string>, string>>, rec: seq<string>, insertFails: set<int>)
    requires Field(rec, 4, "") == []
    ensures Inserted(records + [Ok(rec)], insertFails) == Inserted(records, insertFails)
  {
    assert (records + [Ok(rec)])[..|records|] == records;
  }

  /** One more record adds what its own insert adds. */
  lemma InsertedSnoc(records: seq<Result<seq<string>, string>>, i: nat, insertFails: set<int>)
    requires i < |records|
    ensures Inserted(records[..i + 1], insertFails) == Inserted(records[..i], insertFails) + InsertedAt(records[i], i, insertFails)
  {
    assert records[..i + 1][..i] == records[..i];
  }

  lemma StoredAsSnoc(rows: seq<Row>, ds: seq<Download>, d: Download, id: int)
    requires StoredAs(rows, ds)
    ensures StoredAs(rows + [EncodeDownload(d, id)], ds + [d])
  {
  }

  /** The index of the first record that failed to decode, or the number of records. */
  function FirstError(records: seq<Result<seq<string>, string>>): (n: nat)
    ensures n <= |records|
    ensures forall k :: 0 <= k < n ==> records[k].Ok?
    ensures n < |records| ==> records[n].Err?
    decreases |records|
  {
    if records == [] || records[0].Err? then 0 else 1 + FirstError(records[1..])
  }

  lemma FirstErrorPast(records: seq<Result<seq<string>, string>>, i: nat)
    requires i <= FirstError(records) && i < |records| && records[i].Ok?
    ensures i + 1 <= FirstError(records)
  {
  }

  /** New rows hold exactly these downloads, each under its own id. */
  predicate StoredAs(rows: seq<Row>, ds: seq<Download>) {
    |rows| == |ds| && forall k :: 0 <= k < |rows| ==> rows[k] == EncodeDownload(ds[k], rows[k].id)
  }

  /** One successful insert extends the rows stored since `start` by that download. */
  method StoreOne(db: Table, start: nat, ds: seq<Download>, d: Download)
    requires db.Valid() && start <= |db.rows| && StoredAs(db.rows[start..], ds)
    modifies db
    ensures db.Valid() && start <= |db.rows| && db.rows[..start] == old(db.rows[..start])
    ensures StoredAs(db.rows[start..], ds + [d])
  {
    ghost var before := db.rows;
    var id := db.InsertDownload(d);
    StoredAsSnoc(before[start..], ds, d, id);
    assert db.rows[start..] == before[start..] + [EncodeDownload(d, id)];
    assert db.rows[..start] == before[..start];
  }

  /**
   * `import_csv_to_db` over decoded records. A record that failed to decode
   * ends the import with its error, keeping the rows already inserted;
   * `insertFails` holds the record numbers whose insert fails.
   */
  method ImportCsvToDb(db: Table, records: seq<Result<seq<string>, string>>, insertFails: set<int>) returns (r: Result<nat, string>)
    requires db.Valid()
    modifies db
    ensures db.Valid()
    ensures var n := FirstError(records);
      && |old(db.rows)| <= |db.rows| && db.rows[..|old(db.rows)|] == old(db.rows)
      && StoredAs(db.rows[|old(db.rows)|..], Inserted(records[..n], insertFails))
      && (n == |records| ==> r == Ok(|Inserted(records, insertFails)|))
      && (n < |records| ==> r == Err(records[n].error))
  {
    var inserted: nat := 0;
    var i := 0;
    var start := |db.rows|;
    while i < |records|
      invariant 0 <= i <= |records| && i <= FirstError(records)
      invariant db.Valid() && start <= |db.rows| && db.rows[..start] == old(db.rows)
      invariant StoredAs(db.rows[start..], Inserted(records[..i], insertFails))
      invariant inserted == |Inserted(records[..i], insertFails)|
    {
      InsertedSnoc(records, i, insertFails);
      var rec := records[i];
      if rec.Err? {
        return Err(rec.error);
      }
      FirstErrorPast(records, i);
      var d := RecordDownload(rec.value);
      if d.None? {
        i := i + 1;
        continue;
      }
      if i !in insertFails {
        StoreOne(db, start, Inserted(records[..i], insertFails), d.value);
        inserted := inserted + 1;
      }
      i := i + 1;
    }
    assert records[..i] == records;
    return Ok(inserted);
  }
}
