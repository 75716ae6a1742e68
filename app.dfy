/**
 * The delete handler of the application shell (src/app.rs): a delete
 * request names a whole platform, one collection (platform, handle and
 * content type) or one link, and the in-memory queue rows are filtered
 * accordingly.
 */
module App {
  import opened Common
  import opened UiTypes

  /** `DeleteItem`. */
  datatype DeleteItem =
    | DeletePlatform(platform: Platform)
    | DeleteCollection(platform: Platform, handle: string, contentType: ContentType)
    | DeleteRow(link: string)

  /** A row is kept when it does not belong to what is deleted. */
  predicate Survives(item: DeleteItem, r: ClipRow) {
    match item
    case DeletePlatform(p) => r.platform != p
    case DeleteCollection(p, h, t) => r.platform != p || r.handle != h || r.contentType != t
    case DeleteRow(link) => r.link != link
  }

  /** `on_delete`: the rows that survive, in their order. */
  function OnDelete(rows: seq<ClipRow>, item: DeleteItem): (r: seq<ClipRow>)
    ensures |r| <= |rows|
    ensures forall k :: 0 <= k < |r| ==> r[k] in rows && Survives(item, r[k])
    ensures forall k :: 0 <= k < |rows| && Survives(item, rows[k]) ==> rows[k] in r
  {
    Filter(rows, (r: ClipRow) => Survives(item, r))
  }

  /**
   * Exactly the named rows go: all rows of the platform; the rows matching
   * platform, handle and content type together; the rows with the link.
   */
  lemma OnDeleteExact(rows: seq<ClipRow>, item: DeleteItem)
    ensures item.DeletePlatform? ==>
      forall r :: r in OnDelete(rows, item) <==> r in rows && r.platform != item.platform
    ensures item.DeleteCollection? ==>
      forall r :: r in OnDelete(rows, item) <==>
        r in rows && !(r.platform == item.platform && r.handle == item.handle && r.contentType == item.contentType)
    ensures item.DeleteRow? ==>
      forall r :: r in OnDelete(rows, item) <==> r in rows && r.link != item.link
  {
    var res := OnDelete(rows, item);
    forall r | r in res
      ensures r in rows && Survives(item, r)
    {
      var k :| 0 <= k < |res| && res[k] == r;
    }
    forall r | r in rows && Survives(item, r)
      ensures r in res
    {
      var k :| 0 <= k < |rows| && rows[k] == r;
    }
  }

  /** A row differing from a deleted collection in any one of its three fields stays. */
  lemma CollectionDeleteSparesNeighbours(rows: seq<ClipRow>, p: Platform, h: string, t: ContentType, r: ClipRow)
    requires r in rows
    requires r.platform != p || r.handle != h || r.contentType != t
    ensures r in OnDelete(rows, DeleteCollection(p, h, t))
  {
    OnDeleteExact(rows, DeleteCollection(p, h, t));
  }

  /** The surviving rows keep their relative order: deleting from a concatenation deletes from each part. */
  lemma OnDeleteKeepsOrder(a: seq<ClipRow>, b: seq<ClipRow>, item: DeleteItem)
    ensures OnDelete(a + b, item) == OnDelete(a, item) + OnDelete(b, item)
  {
    FilterAppend(a, b, (r: ClipRow) => Survives(item, r));
  }

  /** No row is added or duplicated. */
  lemma OnDeleteAddsNothing(rows: seq<ClipRow>, item: DeleteItem)
    ensures multiset(OnDelete(rows, item)) <= multiset(rows)
  {
    FilterSubMultiset(rows, (r: ClipRow) => Survives(item, r));
  }

  /** A second identical delete changes nothing, and a delete that names no row leaves the list as it was. */
  lemma OnDeleteSettles(rows: seq<ClipRow>, item: DeleteItem)
    ensures OnDelete(OnDelete(rows, item), item) == OnDelete(rows, item)
    ensures (forall k :: 0 <= k < |rows| ==> Survives(item, rows[k])) ==> OnDelete(rows, item) == rows
  {
    FilterIdempotent(rows, (r: ClipRow) => Survives(item, r));
    if forall k :: 0 <= k < |rows| ==> Survives(item, rows[k]) {
      FilterAll(rows, (r: ClipRow) => Survives(item, r));
    }
  }
}
