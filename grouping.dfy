/**
 * The grouping step shared by the downloads page (`render_section`,
 * src/pages/downloads.rs) and the library page (src/pages/library.rs):
 * rows are de-duplicated by a key, keeping the first occurrence, grouped by
 * platform label and then by a collection key, and every collection is
 * sorted by item label. The pages differ only in the collection key and the
 * label, so the step is stated once over a `Layout` that names them.
 */
module Grouping {
  import opened Common

  /** What a page derives from a row. */
  datatype Layout<K, !R> = Layout(
    normalize: R -> R,        // the row as grouped (blank handle replaced)
    dedupKey: R -> string,    // the de-duplication key
    platformOf: R -> string,  // the platform label
    keyOf: R -> K,            // the collection key
    labelOf: R -> string)     // the item label collections are sorted by

  /* ---------------------------- de-duplication ---------------------------- */

  /** The keys of a list of rows. */
  function KeysOf<R>(rows: seq<R>, key: R -> string): (keys: set<string>)
    ensures forall i :: 0 <= i < |rows| ==> key(rows[i]) in keys
  {
    if rows == [] then {}
    else KeysOf(rows[..|rows| - 1], key) + {key(rows[|rows| - 1])}
  }

  /** The rows that survive de-duplication, in input order. */
  function Unique<K, R>(rows: seq<R>, l: Layout<K, R>): (kept: seq<R>)
    ensures |kept| <= |rows|
  {
    if rows == [] then []
    else
      var kept := Unique(rows[..|rows| - 1], l);
      var r := l.normalize(rows[|rows| - 1]);
      if l.dedupKey(r) in KeysOf(kept, l.dedupKey) then kept else kept + [r]
  }

  /** `Unique` grows by the next row when its key is new and stays the same otherwise. */
  lemma UniqueStep<K, R>(rows: seq<R>, i: nat, l: Layout<K, R>)
    requires i < |rows|
    ensures var kept := Unique(rows[..i], l);
      var r := l.normalize(rows[i]);
      Unique(rows[..i + 1], l) == if l.dedupKey(r) in KeysOf(kept, l.dedupKey) then kept else kept + [r]
  {
    assert rows[..i + 1][..i] == rows[..i];
  }

  lemma KeysOfSnoc<R>(rows: seq<R>, x: R, key: R -> string)
    ensures KeysOf(rows + [x], key) == KeysOf(rows, key) + {key(x)}
  {
    assert (rows + [x])[..|rows|] == rows;
  }

  /** The surviving rows have pairwise different keys. */
  lemma {:induction false} UniqueKeysDistinct<K, R>(rows: seq<R>, l: Layout<K, R>)
    ensures forall i, j :: 0 <= i < j < |Unique(rows, l)| ==> l.dedupKey(Unique(rows, l)[i]) != l.dedupKey(Unique(rows, l)[j])
  {
    if rows != [] {
      var front := rows[..|rows| - 1];
      UniqueKeysDistinct(front, l);
      var kept := Unique(front, l);
      var r := l.normalize(rows[|rows| - 1]);
      if l.dedupKey(r) !in KeysOf(kept, l.dedupKey) {
        var grown := kept + [r];
        forall i, j | 0 <= i < j < |grown|
          ensures l.dedupKey(grown[i]) != l.dedupKey(grown[j])
        {
          assert grown[i] == kept[i];
          assert l.dedupKey(kept[i]) in KeysOf(kept, l.dedupKey);
          if j == |kept| {
            assert grown[j] == r;
          } else {
            assert grown[j] == kept[j];
            assert l.dedupKey(kept[i]) != l.dedupKey(kept[j]);
          }
        }
      }
    }
  }

  /** Every input row's key is among the kept keys: only duplicates are dropped. */
  lemma {:induction false} UniqueCoversKeys<K, R>(rows: seq<R>, l: Layout<K, R>)
    ensures forall i :: 0 <= i < |rows| ==> l.dedupKey(l.normalize(rows[i])) in KeysOf(Unique(rows, l), l.dedupKey)
  {
    if rows != [] {
      var front := rows[..|rows| - 1];
      UniqueCoversKeys(front, l);
      var kept := Unique(front, l);
      var r := l.normalize(rows[|rows| - 1]);
      KeysOfSnoc(kept, r, l.dedupKey);
      assert forall i :: 0 <= i < |front| ==> front[i] == rows[i];
    }
  }

  /** No earlier row has the same key as row `i`. */
  ghost predicate FirstOfKey<K, R>(rows: seq<R>, i: nat, l: Layout<K, R>)
    requires i < |rows|
  {
    forall j :: 0 <= j < i ==> l.dedupKey(l.normalize(rows[j])) != l.dedupKey(l.normalize(rows[i]))
  }

  /** Every row of `Unique(rows)` is the normalized form of an input row that no earlier row shares a key with. */
  ghost predicate KeepsFirst<K, R>(rows: seq<R>, l: Layout<K, R>) {
    forall k :: 0 <= k < |Unique(rows, l)| ==>
      exists i :: 0 <= i < |rows| && Unique(rows, l)[k] == l.normalize(rows[i]) && FirstOfKey(rows, i, l)
  }

  lemma UniqueKeepsFirstStep<K, R>(rows: seq<R>, l: Layout<K, R>)
    requires rows != [] && KeepsFirst(rows[..|rows| - 1], l)
    ensures KeepsFirst(rows, l)
  {
    var front := rows[..|rows| - 1];
    var kept := Unique(front, l);
    var last := |rows| - 1;
    var r := l.normalize(rows[last]);
    assert forall j :: 0 <= j < last ==> rows[j] == front[j];
    var res := Unique(rows, l);
    forall k | 0 <= k < |res|
      ensures exists i :: 0 <= i < |rows| && res[k] == l.normalize(rows[i]) && FirstOfKey(rows, i, l)
    {
      if k < |kept| {
        assert res[k] == kept[k];
        var i :| 0 <= i < |front| && kept[k] == l.normalize(front[i]) && FirstOfKey(front, i, l);
        assert FirstOfKey(rows, i, l);
      } else {
        assert res == kept + [r] && res[k] == r;
        UniqueCoversKeys(front, l);
        assert FirstOfKey(rows, last, l);
      }
    }
  }

  /** Every surviving row is the first input row with its key. */
  lemma {:induction false} UniqueKeepsFirst<K, R>(rows: seq<R>, l: Layout<K, R>)
    ensures KeepsFirst(rows, l)
  {
    if rows != [] {
      UniqueKeepsFirst(rows[..|rows| - 1], l);
      UniqueKeepsFirstStep(rows, l);
    } else {
      assert Unique(rows, l) == [];
    }
  }

  /* -------------------------------- grouping ------------------------------- */

  /** One collection: its key and its rows. */
  datatype Collection<K, R> = Collection(key: K, rows: seq<R>)

  /** Platform label to collections. */
  type Groups<K, R> = map<string, seq<Collection<K, R>>>

  /** Append `r` to the collection with key `k`, opening a new collection at the end when there is none. */
  function AddToCollection<K(==), R>(cs: seq<Collection<K, R>>, k: K, r: R): seq<Collection<K, R>> {
    if cs == [] then [Collection(k, [r])]
    else if cs[0].key == k then [cs[0].(rows := cs[0].rows + [r])] + cs[1..]
    else [cs[0]] + AddToCollection(cs[1..], k, r)
  }

  /** `map.entry(platform).or_default().entry(key).or_default().push(r)`. */
  function AddRow<K(==), R>(g: Groups<K, R>, l: Layout<K, R>, r: R): Groups<K, R> {
    var pl := l.platformOf(r);
    g[pl := AddToCollection(if pl in g then g[pl] else [], l.keyOf(r), r)]
  }

  /** The groups built from rows taken in order. */
  function GroupAll<K(==), R>(kept: seq<R>, l: Layout<K, R>): Groups<K, R> {
    if kept == [] then map[]
    else AddRow(GroupAll(kept[..|kept| - 1], l), l, kept[|kept| - 1])
  }

  /** All rows of a list of collections, collection after collection. */
  function AllRows<K, R>(cs: seq<Collection<K, R>>): seq<R> {
    if cs == [] then [] else cs[0].rows + AllRows(cs[1..])
  }

  /** The sum of the collection sizes (`bookmarks_count`, `items_count`). */
  function SumSizes<K, R>(cs: seq<Collection<K, R>>): nat {
    if cs == [] then 0 else |cs[0].rows| + SumSizes(cs[1..])
  }

  /** The rows with one platform label, in order. */
  function RowsOn<K, R>(rows: seq<R>, l: Layout<K, R>, pl: string): seq<R> {
    Filter(rows, (r: R) => l.platformOf(r) == pl)
  }

  /** The keys of a list of collections. */
  function KeysIn<K, R>(cs: seq<Collection<K, R>>): set<K> {
    if cs == [] then {} else {cs[0].key} + KeysIn(cs[1..])
  }

  /** No two collections share a key. */
  ghost predicate DistinctKeys<K, R>(cs: seq<Collection<K, R>>) {
    cs == [] || (cs[0].key !in KeysIn(cs[1..]) && DistinctKeys(cs[1..]))
  }

  /** Every row sits in the collection of its own key, under its own platform label. */
  ghost predicate KeyedBy<K, R>(cs: seq<Collection<K, R>>, l: Layout<K, R>, pl: string) {
    cs == [] ||
      ((forall i :: 0 <= i < |cs[0].rows| ==> l.keyOf(cs[0].rows[i]) == cs[0].key && l.platformOf(cs[0].rows[i]) == pl)
       && KeyedBy(cs[1..], l, pl))
  }

  lemma {:induction false} SumSizesIsAllRows<K, R>(cs: seq<Collection<K, R>>)
    ensures SumSizes(cs) == |AllRows(cs)|
  {
    if cs != [] {
      SumSizesIsAllRows(cs[1..]);
    }
  }

  lemma {:induction false} AddToCollectionRows<K, R>(cs: seq<Collection<K, R>>, k: K, r: R)
    ensures multiset(AllRows(AddToCollection(cs, k, r))) == multiset(AllRows(cs)) + multiset{r}
  {
    if cs != [] && cs[0].key != k {
      AddToCollectionRows(cs[1..], k, r);
    }
  }

  lemma {:induction false} AddToCollectionKeys<K, R>(cs: seq<Collection<K, R>>, k: K, r: R)
    ensures KeysIn(AddToCollection(cs, k, r)) == KeysIn(cs) + {k}
    ensures DistinctKeys(cs) ==> DistinctKeys(AddToCollection(cs, k, r))
  {
    if cs != [] && cs[0].key != k {
      AddToCollectionKeys(cs[1..], k, r);
    }
  }

  lemma {:induction false} AddToCollectionKeyed<K, R>(cs: seq<Collection<K, R>>, l: Layout<K, R>, pl: string, r: R)
    requires KeyedBy(cs, l, pl) && l.platformOf(r) == pl
    ensures KeyedBy(AddToCollection(cs, l.keyOf(r), r), l, pl)
  {
    if cs != [] && cs[0].key != l.keyOf(r) {
      AddToCollectionKeyed(cs[1..], l, pl, r);
    }
  }

  /** What the groups of a list of rows hold for one platform label. */
  ghost predicate GroupedOn<K, R>(g: Groups<K, R>, kept: seq<R>, l: Layout<K, R>, pl: string) {
    && (pl in g <==> RowsOn(kept, l, pl) != [])
    && (pl in g ==>
        && multiset(AllRows(g[pl])) == multiset(RowsOn(kept, l, pl))
        && KeyedBy(g[pl], l, pl) && DistinctKeys(g[pl]))
  }

  /** The rows of one platform after one more row. */
  lemma RowsOnSnoc<K, R>(front: seq<R>, r: R, l: Layout<K, R>, pl: string)
    ensures RowsOn(front + [r], l, pl) == RowsOn(front, l, pl) + (if l.platformOf(r) == pl then [r] else [])
  {
    FilterAppend(front, [r], (x: R) => l.platformOf(x) == pl);
  }

  lemma GroupAllSnoc<K, R>(front: seq<R>, r: R, l: Layout<K, R>)
    ensures GroupAll(front + [r], l) == AddRow(GroupAll(front, l), l, r)
  {
    assert (front + [r])[..|front|] == front;
  }

  /** A row of another platform leaves this platform's entry and rows as they were. */
  lemma AddRowOther<K, R>(g: Groups<K, R>, front: seq<R>, r: R, l: Layout<K, R>, pl: string)
    requires l.platformOf(r) != pl
    requires GroupedOn(g, front, l, pl)
    ensures GroupedOn(AddRow(g, l, r), front + [r], l, pl)
  {
    RowsOnSnoc(front, r, l, pl);
  }

  /** A row of this platform goes into its collection and nowhere else. */
  lemma AddRowSame<K, R>(g: Groups<K, R>, front: seq<R>, r: R, l: Layout<K, R>)
    requires GroupedOn(g, front, l, l.platformOf(r))
    ensures GroupedOn(AddRow(g, l, r), front + [r], l, l.platformOf(r))
  {
    var p := l.platformOf(r);
    RowsOnSnoc(front, r, l, p);
    var cs := if p in g then g[p] else [];
    AddToCollectionRows(cs, l.keyOf(r), r);
    AddToCollectionKeys(cs, l.keyOf(r), r);
    AddToCollectionKeyed(cs, l, p, r);
  }

  /**
   * The groups of a list of rows: a platform label is present exactly when
   * the platform has rows; it then holds exactly (as a multiset) those rows,
   * each in the collection of its key, and no two of its collections share
   * a key.
   */
  lemma {:induction false} GroupAllSound<K, R>(kept: seq<R>, l: Layout<K, R>, pl: string)
    ensures GroupedOn(GroupAll(kept, l), kept, l, pl)
  {
    if kept != [] {
      var front := kept[..|kept| - 1];
      var r := kept[|kept| - 1];
      assert kept == front + [r];
      GroupAllSound(front, l, pl);
      GroupAllSnoc(front, r, l);
      if l.platformOf(r) == pl {
        AddRowSame(GroupAll(front, l), front, r, l);
      } else {
        AddRowOther(GroupAll(front, l), front, r, l, pl);
      }
    }
  }

  /* -------------------------------- sorting -------------------------------- */

  /** Lexicographic order on strings, character by character (Rust's `String::cmp`). */
  predicate LexLt(a: string, b: string)
    decreases |a|
  {
    b != [] && (a == [] || a[0] < b[0] || (a[0] == b[0] && LexLt(a[1..], b[1..])))
  }

  predicate LexLe(a: string, b: string) {
    a == b || LexLt(a, b)
  }

  lemma {:induction false} LexLtTransitive(a: string, b: string, c: string)
    requires LexLt(a, b) && LexLt(b, c)
    ensures LexLt(a, c)
    decreases |a|
  {
    if a != [] && a[0] == b[0] && b[0] == c[0] {
      LexLtTransitive(a[1..], b[1..], c[1..]);
    }
  }

  lemma {:induction false} LexTotal(a: string, b: string)
    ensures a == b || LexLt(a, b) || LexLt(b, a)
    decreases |a|
  {
    if a != [] && b != [] && a[0] == b[0] {
      LexTotal(a[1..], b[1..]);
      if a[1..] == b[1..] {
        assert a == [a[0]] + a[1..] && b == [b[0]] + b[1..];
      }
    }
  }

  lemma LexLeTransitive(a: string, b: string, c: string)
    requires LexLe(a, b) && LexLe(b, c)
    ensures LexLe(a, c)
  {
    if a != b && b != c {
      LexLtTransitive(a, b, c);
    }
  }

  /** Ascending by label. */
  ghost predicate SortedBy<R>(s: seq<R>, labelOf: R -> string) {
    forall i, j :: 0 <= i < j < |s| ==> LexLe(labelOf(s[i]), labelOf(s[j]))
  }

  /** Insert `x` after every row whose label is not greater than its own. */
  function InsertByLabel<R>(x: R, s: seq<R>, labelOf: R -> string): seq<R> {
    if s == [] then [x]
    else if LexLt(labelOf(x), labelOf(s[0])) then [x] + s
    else [s[0]] + InsertByLabel(x, s[1..], labelOf)
  }

  /** `sort_by` on item labels, as an insertion sort. */
  function SortByLabel<R>(s: seq<R>, labelOf: R -> string): seq<R> {
    if s == [] then []
    else InsertByLabel(s[|s| - 1], SortByLabel(s[..|s| - 1], labelOf), labelOf)
  }

  lemma {:induction false} InsertByLabelPermutes<R>(x: R, s: seq<R>, labelOf: R -> string)
    ensures multiset(InsertByLabel(x, s, labelOf)) == multiset(s) + multiset{x}
  {
    if s != [] && !LexLt(labelOf(x), labelOf(s[0])) {
      InsertByLabelPermutes(x, s[1..], labelOf);
      assert s == [s[0]] + s[1..];
    }
  }

  /** Every label in `InsertByLabel(x, s)` is bounded below by `lo` when `x`'s and all of `s`'s are. */
  lemma {:induction false} InsertByLabelBelow<R>(x: R, s: seq<R>, labelOf: R -> string, lo: string)
    requires LexLe(lo, labelOf(x))
    requires forall i :: 0 <= i < |s| ==> LexLe(lo, labelOf(s[i]))
    ensures forall i :: 0 <= i < |InsertByLabel(x, s, labelOf)| ==> LexLe(lo, labelOf(InsertByLabel(x, s, labelOf)[i]))
  {
    if s != [] && !LexLt(labelOf(x), labelOf(s[0])) {
      InsertByLabelBelow(x, s[1..], labelOf, lo);
      var rest := InsertByLabel(x, s[1..], labelOf);
      var res := [s[0]] + rest;
      assert LexLe(lo, labelOf(s[0]));
      forall i | 0 <= i < |res|
        ensures LexLe(lo, labelOf(res[i]))
      {
        if i > 0 {
          assert res[i] == rest[i - 1];
          assert LexLe(lo, labelOf(rest[i - 1]));
        }
      }
    }
  }

  lemma {:induction false} InsertByLabelSorted<R>(x: R, s: seq<R>, labelOf: R -> string)
    requires SortedBy(s, labelOf)
    ensures SortedBy(InsertByLabel(x, s, labelOf), labelOf)
  {
    if s != [] {
      if LexLt(labelOf(x), labelOf(s[0])) {
        forall j | 0 <= j < |s|
          ensures LexLe(labelOf(x), labelOf(s[j]))
        {
          if j > 0 {
            LexLeTransitive(labelOf(x), labelOf(s[0]), labelOf(s[j]));
          }
        }
      } else {
        var tail := s[1..];
        assert SortedBy(tail, labelOf) by {
          forall i, j | 0 <= i < j < |tail|
            ensures LexLe(labelOf(tail[i]), labelOf(tail[j]))
          {
            assert tail[i] == s[i + 1] && tail[j] == s[j + 1];
          }
        }
        InsertByLabelSorted(x, tail, labelOf);
        LexTotal(labelOf(x), labelOf(s[0]));
        assert forall i :: 0 <= i < |tail| ==> tail[i] == s[i + 1];
        InsertByLabelBelow(x, tail, labelOf, labelOf(s[0]));
        var rest := InsertByLabel(x, tail, labelOf);
        var res := [s[0]] + rest;
        forall i, j | 0 <= i < j < |res|
          ensures LexLe(labelOf(res[i]), labelOf(res[j]))
        {
          assert res[j] == rest[j - 1];
          assert LexLe(labelOf(s[0]), labelOf(rest[j - 1]));
          if i > 0 {
            assert res[i] == rest[i - 1];
            assert LexLe(labelOf(rest[i - 1]), labelOf(rest[j - 1]));
          }
        }
      }
    }
  }

  /** The sorted list is ascending by label and holds exactly the same rows. */
  lemma {:induction false} SortByLabelSorted<R>(s: seq<R>, labelOf: R -> string)
    ensures SortedBy(SortByLabel(s, labelOf), labelOf)
    ensures multiset(SortByLabel(s, labelOf)) == multiset(s)
  {
    if s != [] {
      var front := s[..|s| - 1];
      SortByLabelSorted(front, labelOf);
      InsertByLabelSorted(s[|s| - 1], SortByLabel(front, labelOf), labelOf);
      InsertByLabelPermutes(s[|s| - 1], SortByLabel(front, labelOf), labelOf);
      assert s == front + [s[|s| - 1]];
    }
  }

  /** Every collection sorted by label; keys and order of collections unchanged. */
  function SortCollections<K, R>(cs: seq<Collection<K, R>>, labelOf: R -> string): (sorted: seq<Collection<K, R>>)
    ensures |sorted| == |cs|
    ensures forall i :: 0 <= i < |cs| ==> sorted[i].key == cs[i].key
  {
    if cs == [] then []
    else [cs[0].(rows := SortByLabel(cs[0].rows, labelOf))] + SortCollections(cs[1..], labelOf)
  }

  /** Sorting keeps every collection's rows (as a multiset), its key, the keying and the distinct keys. */
  lemma {:induction false} SortedCollectionsKeep<K, R>(cs: seq<Collection<K, R>>, l: Layout<K, R>, pl: string)
    ensures var sorted := SortCollections(cs, l.labelOf);
      && (forall i :: 0 <= i < |cs| ==> SortedBy(sorted[i].rows, l.labelOf))
      && multiset(AllRows(sorted)) == multiset(AllRows(cs))
      && KeysIn(sorted) == KeysIn(cs)
      && (DistinctKeys(cs) ==> DistinctKeys(sorted))
      && (KeyedBy(cs, l, pl) ==> KeyedBy(sorted, l, pl))
  {
    if cs != [] {
      SortedCollectionsKeep(cs[1..], l, pl);
      SortByLabelSorted(cs[0].rows, l.labelOf);
      var sorted := SortCollections(cs, l.labelOf);
      assert sorted[1..] == SortCollections(cs[1..], l.labelOf);
      var s0 := sorted[0].rows;
      if KeyedBy(cs, l, pl) {
        forall i | 0 <= i < |s0|
          ensures l.keyOf(s0[i]) == cs[0].key && l.platformOf(s0[i]) == pl
        {
          assert s0[i] in multiset(cs[0].rows);
          var j :| 0 <= j < |cs[0].rows| && cs[0].rows[j] == s0[i];
        }
      }
    }
  }

  /* ---------------------------- the whole step ---------------------------- */

  /** The grouped and sorted collections of a page section. */
  function Sections<K(==), R>(rowsIn: seq<R>, l: Layout<K, R>): Groups<K, R> {
    var g := GroupAll(Unique(rowsIn, l), l);
    map pl | pl in g :: SortCollections(g[pl], l.labelOf)
  }

  /**
   * The loop of the two pages: skip a row whose key was seen, else record the
   * key and push the row into its platform's collection; then sort every
   * collection by label.
   */
  method GroupRows<K(==), R>(rowsIn: seq<R>, l: Layout<K, R>) returns (groups: Groups<K, R>)
    ensures groups == Sections(rowsIn, l)
  {
    var seen: set<string> := {};
    var byPlatform: Groups<K, R> := map[];
    ghost var kept: seq<R> := [];
    var i := 0;
    while i < |rowsIn|
      invariant 0 <= i <= |rowsIn|
      invariant kept == Unique(rowsIn[..i], l)
      invariant seen == KeysOf(kept, l.dedupKey)
      invariant byPlatform == GroupAll(kept, l)
    {
      var r := l.normalize(rowsIn[i]);
      UniqueStep(rowsIn, i, l);
      var key := l.dedupKey(r);
      if key !in seen {
        KeysOfSnoc(kept, r, l.dedupKey);
        GroupAllSnoc(kept, r, l);
        seen := seen + {key};
        byPlatform := AddRow(byPlatform, l, r);
        kept := kept + [r];
      }
      i := i + 1;
    }
    assert rowsIn[..i] == rowsIn;
    groups := map pl | pl in byPlatform :: SortCollections(byPlatform[pl], l.labelOf);
  }

  /**
   * What a page shows for a platform label: it is there exactly when some
   * de-duplicated row has it; its collections are sorted by label, hold
   * exactly that platform's de-duplicated rows, each under its own key with
   * no key repeated, and the row count is the number of those rows.
   */
  lemma SectionsSound<K, R>(rowsIn: seq<R>, l: Layout<K, R>, pl: string)
    ensures var s := Sections(rowsIn, l);
      var kept := Unique(rowsIn, l);
      && (pl in s <==> RowsOn(kept, l, pl) != [])
      && (pl in s ==>
        && (forall i :: 0 <= i < |s[pl]| ==> SortedBy(s[pl][i].rows, l.labelOf))
        && multiset(AllRows(s[pl])) == multiset(RowsOn(kept, l, pl))
        && SumSizes(s[pl]) == |RowsOn(kept, l, pl)|
        && KeyedBy(s[pl], l, pl) && DistinctKeys(s[pl]))
  {
    var kept := Unique(rowsIn, l);
    var g := GroupAll(kept, l);
    GroupAllSound(kept, l, pl);
    if pl in g {
      SortedCollectionsKeep(g[pl], l, pl);
      SumSizesIsAllRows(g[pl]);
      SumSizesIsAllRows(SortCollections(g[pl], l.labelOf));
      assert |multiset(AllRows(SortCollections(g[pl], l.labelOf)))| == |AllRows(SortCollections(g[pl], l.labelOf))|;
      assert |multiset(RowsOn(kept, l, pl))| == |RowsOn(kept, l, pl)|;
    }
  }

  lemma {:induction false} AllRowsMember<K, R>(cs: seq<Collection<K, R>>, i: nat, j: nat)
    requires i < |cs| && j < |cs[i].rows|
    ensures cs[i].rows[j] in AllRows(cs)
  {
    if i > 0 {
      AllRowsMember(cs[1..], i - 1, j);
    }
  }

  lemma {:induction false} KeyedByMember<K, R>(cs: seq<Collection<K, R>>, l: Layout<K, R>, pl: string, i: nat, j: nat)
    requires KeyedBy(cs, l, pl) && i < |cs| && j < |cs[i].rows|
    ensures l.keyOf(cs[i].rows[j]) == cs[i].key && l.platformOf(cs[i].rows[j]) == pl
  {
    if i > 0 {
      KeyedByMember(cs[1..], l, pl, i - 1, j);
    }
  }

  /** `x` is the normalized form of an input row that is the first with its key. */
  ghost predicate FirstShown<K, R>(rowsIn: seq<R>, l: Layout<K, R>, x: R) {
    exists n :: 0 <= n < |rowsIn| && x == l.normalize(rowsIn[n]) && FirstOfKey(rowsIn, n, l)
  }

  /** Every row listed under a platform label has that label and is the normalized first input row with its key. */
  lemma ListedRowOrigin<K, R>(rowsIn: seq<R>, l: Layout<K, R>, pl: string, x: R)
    requires pl in Sections(rowsIn, l) && x in AllRows(Sections(rowsIn, l)[pl])
    ensures l.platformOf(x) == pl && FirstShown(rowsIn, l, x)
  {
    var cs := Sections(rowsIn, l)[pl];
    var kept := Unique(rowsIn, l);
    SectionsSound(rowsIn, l, pl);
    assert x in multiset(RowsOn(kept, l, pl));
    var on := RowsOn(kept, l, pl);
    var k :| 0 <= k < |on| && on[k] == x;
    assert x in kept;
    var m :| 0 <= m < |kept| && kept[m] == x;
    UniqueKeepsFirst(rowsIn, l);
  }

  /**
   * Every row a page shows under a platform label has that label and sits in
   * the collection of its own key, and it is the normalized form of the
   * first input row with its de-duplication key.
   */
  lemma SectionRowOrigin<K, R>(rowsIn: seq<R>, l: Layout<K, R>, pl: string, i: nat, j: nat)
    requires pl in Sections(rowsIn, l)
    requires i < |Sections(rowsIn, l)[pl]| && j < |Sections(rowsIn, l)[pl][i].rows|
    ensures l.platformOf(Sections(rowsIn, l)[pl][i].rows[j]) == pl
    ensures l.keyOf(Sections(rowsIn, l)[pl][i].rows[j]) == Sections(rowsIn, l)[pl][i].key
    ensures FirstShown(rowsIn, l, Sections(rowsIn, l)[pl][i].rows[j])
  {
    var cs := Sections(rowsIn, l)[pl];
    SectionsSound(rowsIn, l, pl);
    KeyedByMember(cs, l, pl, i, j);
    AllRowsMember(cs, i, j);
    ListedRowOrigin(rowsIn, l, pl, cs[i].rows[j]);
  }

  lemma {:induction false} KeysOfOnly<R>(rows: seq<R>, key: R -> string, k: string)
    requires forall i :: 0 <= i < |rows| ==> key(rows[i]) != k
    ensures k !in KeysOf(rows, key)
  {
    if rows != [] {
      KeysOfOnly(rows[..|rows| - 1], key, k);
    }
  }

  /** The first input row with a key always survives de-duplication (normalized). */
  lemma {:induction false} FirstIsKept<K, R>(rows: seq<R>, l: Layout<K, R>, n: nat)
    requires n < |rows| && FirstOfKey(rows, n, l)
    ensures l.normalize(rows[n]) in Unique(rows, l)
  {
    var front := rows[..|rows| - 1];
    var kept := Unique(front, l);
    var r := l.normalize(rows[|rows| - 1]);
    assert forall j :: 0 <= j < |front| ==> front[j] == rows[j];
    if n < |rows| - 1 {
      assert FirstOfKey(front, n, l);
      FirstIsKept(front, l, n);
    } else {
      UniqueKeepsFirst(front, l);
      forall m | 0 <= m < |kept|
        ensures l.dedupKey(kept[m]) != l.dedupKey(r)
      {
        var i :| 0 <= i < |front| && kept[m] == l.normalize(front[i]) && FirstOfKey(front, i, l);
        assert kept[m] == l.normalize(rows[i]);
      }
      KeysOfOnly(kept, l.dedupKey, l.dedupKey(r));
      assert Unique(rows, l) == kept + [r];
    }
  }
}
