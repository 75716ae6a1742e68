/**
 * The string operations of Rust's `str` that the application relies on,
 * over `seq<char>`. Indices are character positions. Rust's are byte
 * offsets; the two agree on ASCII text, and where the application slices at
 * a position found by its own search, a byte slice and a character slice
 * cut the same text. Fixed byte offsets on non-ASCII text are not modelled.
 */
module Text {
  import opened Common

  /** Rust's `char::is_whitespace`, restricted to the ASCII whitespace characters. */
  predicate IsSpace(c: char) {
    c == ' ' || c == '\t' || c == '\n' || c == '\r' || c == '\U{0B}' || c == '\U{0C}'
  }

  /** ASCII lower-casing of one character. */
  function LowerChar(c: char): char {
    if 'A' <= c <= 'Z' then (c as int + 32) as char else c
  }

  function ToLower(s: string): (r: string)
    ensures |r| == |s|
    ensures forall i :: 0 <= i < |s| ==> r[i] == LowerChar(s[i])
  {
    if s == [] then [] else [LowerChar(s[0])] + ToLower(s[1..])
  }

  lemma ToLowerIdempotent(s: string)
    ensures ToLower(ToLower(s)) == ToLower(s)
  {
  }

  /** Text without upper-case ASCII letters is its own lower-case form. */
  lemma ToLowerNoUpper(s: string)
    requires forall k :: 0 <= k < |s| ==> !('A' <= s[k] <= 'Z')
    ensures ToLower(s) == s
  {
  }

  lemma ToLowerAppend(a: string, b: string)
    ensures ToLower(a + b) == ToLower(a) + ToLower(b)
  {
  }

  /* ------------------------------ searching ------------------------------ */

  /** `p` occurs in `s` starting at position `i`. */
  predicate OccursAt(s: string, p: string, i: nat) {
    i + |p| <= |s| && s[i..i + |p|] == p
  }

  function FindFrom(s: string, p: string, i: nat): (r: Option<nat>)
    requires i <= |s|
    ensures r.Some? ==> i <= r.value && OccursAt(s, p, r.value)
    ensures r.Some? ==> forall j :: i <= j < r.value ==> !OccursAt(s, p, j)
    ensures r.None? ==> forall j :: i <= j ==> !OccursAt(s, p, j)
    decreases |s| - i
  {
    if OccursAt(s, p, i) then Some(i)
    else if i == |s| then None
    else FindFrom(s, p, i + 1)
  }

  /** Rust's `str::find`: the first position at which `p` occurs. */
  function Find(s: string, p: string): (r: Option<nat>)
    ensures r.Some? ==> OccursAt(s, p, r.value)
    ensures r.Some? ==> forall j :: 0 <= j < r.value ==> !OccursAt(s, p, j)
    ensures r.None? ==> forall j :: !OccursAt(s, p, j)
  {
    FindFrom(s, p, 0)
  }

  /** Rust's `str::contains`. */
  predicate Contains(s: string, p: string) {
    Find(s, p).Some?
  }

  lemma ContainsAt(s: string, p: string, i: nat)
    requires OccursAt(s, p, i)
    ensures Contains(s, p)
  {
  }

  lemma OccursAtAppend(s: string, t: string, p: string, i: nat)
    requires OccursAt(s, p, i)
    ensures OccursAt(s + t, p, i) && OccursAt(t + s, p, |t| + i)
  {
    assert (s + t)[i..i + |p|] == s[i..i + |p|];
    assert (t + s)[|t| + i..|t| + i + |p|] == s[i..i + |p|];
  }

  /** A URL that contains a marker still contains it after text is added on either side. */
  lemma ContainsAppend(s: string, t: string, p: string)
    requires Contains(s, p)
    ensures Contains(s + t, p) && Contains(t + s, p)
  {
    var i := Find(s, p).value;
    OccursAtAppend(s, t, p, i);
    ContainsAt(s + t, p, i);
    ContainsAt(t + s, p, |t| + i);
  }

  lemma ContainsPrefix(s: string, p: string)
    requires |p| <= |s| && s[..|p|] == p
    ensures Contains(s, p)
  {
    ContainsAt(s, p, 0);
  }

  /** `Find` reports `i` when `p` occurs at `i` and at no earlier position. */
  lemma FindIs(s: string, p: string, i: nat)
    requires OccursAt(s, p, i)
    requires forall j :: 0 <= j < i ==> !OccursAt(s, p, j)
    ensures Find(s, p) == Some(i)
  {
  }

  /** The first occurrence inside `s` is still the first one once text is appended. */
  lemma FindAppend(s: string, t: string, p: string, i: nat)
    requires Find(s, p) == Some(i)
    ensures Find(s + t, p) == Some(i)
  {
    OccursAtAppend(s, t, p, i);
    forall j | 0 <= j < i
      ensures !OccursAt(s + t, p, j)
    {
      assert !OccursAt(s, p, j);
      assert (s + t)[j..j + |p|] == s[j..j + |p|];
    }
    FindIs(s + t, p, i);
  }

  /** With no `-` before it, the first ` - ` is the one right after `u`. */
  lemma FindDashSeparator(u: string, t: string)
    requires '-' !in u
    ensures Find(u + " - " + t, " - ") == Some(|u|)
  {
    var s := u + " - " + t;
    assert OccursAt(s, " - ", |u|) by {
      assert s[|u|..|u| + 3] == " - ";
    }
    forall j | 0 <= j < |u|
      ensures !OccursAt(s, " - ", j)
    {
      assert s[j + 1] != '-';
    }
    FindIs(s, " - ", |u|);
  }

  /** Nothing but the empty pattern occurs in the empty string. */
  lemma NotContainsInEmpty(p: string)
    requires p != []
    ensures !Contains([], p)
  {
  }

  /** A character-level view of `Contains` for one-character patterns. */
  lemma ContainsChar(s: string, c: char)
    ensures Contains(s, [c]) <==> c in s
  {
    if c in s {
      var i :| 0 <= i < |s| && s[i] == c;
      assert s[i..i + 1] == [c];
      ContainsAt(s, [c], i);
    }
    if Contains(s, [c]) {
      var i := Find(s, [c]).value;
      assert s[i..i + 1] == [c];
      assert s[i] == c;
    }
  }

  /** A pattern whose first character appears nowhere else in it. */
  predicate HeadUnique(p: string) {
    p != [] && forall k :: 1 <= k < |p| ==> p[k] != p[0]
  }

  /**
   * When `t` begins with the first character of a head-unique pattern `p`,
   * no occurrence of `p` in `u + t` straddles the junction.
   */
  lemma NoStraddle(u: string, t: string, p: string, i: nat)
    requires HeadUnique(p) && t != [] && t[0] == p[0]
    requires i < |u| && OccursAt(u + t, p, i)
    ensures OccursAt(u, p, i)
  {
    StraddleChar(u, t, p, i);
    assert i + |p| <= |u|;
    assert (u + t)[i..i + |p|] == u[i..i + |p|];
  }

  /** An occurrence that runs past the end of `u` matches the first character of `t` inside `p`. */
  lemma StraddleChar(u: string, t: string, p: string, i: nat)
    requires t != [] && i < |u| && OccursAt(u + t, p, i)
    ensures i + |p| > |u| ==> p[|u| - i] == t[0]
  {
    if i + |p| > |u| {
      assert (u + t)[i..i + |p|][|u| - i] == (u + t)[|u|];
    }
  }

  /** Under the same conditions, `p` occurs in `u + t` only if it occurs in `u` or in `t`. */
  lemma ContainsJoin(u: string, t: string, p: string)
    requires HeadUnique(p) && t != [] && t[0] == p[0]
    requires Contains(u + t, p)
    ensures Contains(u, p) || Contains(t, p)
  {
    var i := Find(u + t, p).value;
    if i < |u| {
      NoStraddle(u, t, p, i);
      ContainsAt(u, p, i);
    } else {
      assert (u + t)[|u|..] == t;
      assert (u + t)[i..i + |p|] == t[i - |u|..i - |u| + |p|];
      ContainsAt(t, p, i - |u|);
    }
  }

  /**
   * A pattern whose first character is in neither `a` nor `c`, and which lacks the first character
   * of `c`, occurs in `a + b + c` only inside `b`.
   */
  lemma NotContainsBefore(a: string, b: string, c: string, p: string)
    requires p != [] && c != []
    requires forall k :: 0 <= k < |a| ==> a[k] != p[0]
    requires forall k :: 0 <= k < |c| ==> c[k] != p[0]
    requires forall k :: 0 <= k < |p| ==> p[k] != c[0]
    requires !Contains(b, p)
    ensures !Contains(a + b + c, p)
  {
    var t := a + b + c;
    forall i: nat | i + |p| <= |t|
      ensures !OccursAt(t, p, i)
    {
      var w := t[i..i + |p|];
      if i < |a| {
        assert w[0] == a[i];
      } else if i >= |a| + |b| {
        assert w[0] == c[i - |a| - |b|];
      } else if i + |p| <= |a| + |b| {
        assert w == b[i - |a|..i - |a| + |p|];
        assert !OccursAt(b, p, i - |a|);
      } else {
        assert w[|a| + |b| - i] == c[0];
      }
    }
  }

  /**
   * A pattern whose first character is in neither `a` nor `c`, and which lacks the second character
   * of `c`, occurs in `a + b + c` only inside `b` followed by the first character of `c`.
   */
  lemma NotContainsBetween(a: string, b: string, c: string, p: string)
    requires p != [] && |c| >= 2
    requires forall k :: 0 <= k < |a| ==> a[k] != p[0]
    requires forall k :: 0 <= k < |c| ==> c[k] != p[0]
    requires forall k :: 0 <= k < |p| ==> p[k] != c[1]
    requires !Contains(b + [c[0]], p)
    ensures !Contains(a + b + c, p)
  {
    var t := a + b + c;
    var b1 := b + [c[0]];
    forall i: nat | i + |p| <= |t|
      ensures !OccursAt(t, p, i)
    {
      var w := t[i..i + |p|];
      if i < |a| {
        assert w[0] == a[i];
      } else if i >= |a| + |b| {
        assert w[0] == c[i - |a| - |b|];
      } else if i + |p| <= |a| + |b1| {
        assert t[|a|..|a| + |b1|] == b1;
        assert w == b1[i - |a|..i - |a| + |p|];
        assert !OccursAt(b1, p, i - |a|);
      } else {
        assert w[|a| + |b| + 1 - i] == c[1];
      }
    }
  }

  /**
   * The first occurrence of `p` in `b + p` is the appended one, when `b` holds none and no
   * proper suffix of `p` can start it (its second character does not recur, its ends differ).
   */
  lemma FindAppended(b: string, p: string)
    requires |p| >= 2 && p[|p| - 1] != p[0]
    requires forall k :: 2 <= k < |p| ==> p[k] != p[1]
    requires !Contains(b, p)
    ensures Find(b + p, p) == Some(|b|)
  {
    var u := b + p;
    assert OccursAt(u, p, |b|) by { assert u[|b|..] == p; }
    forall j | 0 <= j < |b|
      ensures !OccursAt(u, p, j)
    {
      if j + |p| <= |b| {
        assert u[j..j + |p|] == b[j..j + |p|];
        assert !OccursAt(b, p, j);
      } else {
        var w := u[j..j + |p|];
        var k := |b| - j;
        assert w[k] == p[0];
        if k + 1 < |p| {
          assert w[k + 1] == p[1];
        }
      }
    }
    FindIs(u, p, |b|);
  }

  /** A pattern longer than the text cannot occur in it. */
  lemma NotContainsShorter(s: string, p: string)
    requires |s| < |p|
    ensures !Contains(s, p)
  {
  }

  /* ------------------------------ splitting ------------------------------ */

  /** Position of the first `c` in `s`. */
  function IndexOfChar(s: string, c: char): (i: nat)
    requires c in s
    ensures i < |s| && s[i] == c && c !in s[..i]
  {
    if s[0] == c then 0
    else
      var j := IndexOfChar(s[1..], c);
      assert s[..j + 1] == [s[0]] + s[1..][..j];
      j + 1
  }

  /** Rust's `str::split(char)`: always at least one piece, none containing the separator. */
  function Split(s: string, c: char): (r: seq<string>)
    ensures |r| >= 1
    ensures forall k :: 0 <= k < |r| ==> c !in r[k]
    decreases |s|
  {
    if c in s then
      var i := IndexOfChar(s, c);
      [s[..i]] + Split(s[i + 1..], c)
    else [s]
  }

  /** Joining pieces back with the separator; the inverse of `Split`. */
  function Join(parts: seq<string>, c: char): string
    requires |parts| >= 1
  {
    if |parts| == 1 then parts[0] else parts[0] + [c] + Join(parts[1..], c)
  }

  lemma {:induction false} JoinSplit(s: string, c: char)
    ensures Join(Split(s, c), c) == s
    decreases |s|
  {
    if c in s {
      var i := IndexOfChar(s, c);
      JoinSplit(s[i + 1..], c);
      assert Split(s, c)[1..] == Split(s[i + 1..], c);
      assert s == s[..i] + [c] + s[i + 1..];
    }
  }

  lemma SplitNoSep(s: string, c: char)
    requires c !in s
    ensures Split(s, c) == [s]
  {
  }

  /** Splitting `a` + separator + `b` gives `a` followed by the pieces of `b`. */
  lemma SplitCons(a: string, c: char, b: string)
    requires c !in a
    ensures Split(a + [c] + b, c) == [a] + Split(b, c)
  {
    var s := a + [c] + b;
    assert s[|a|] == c;
    var i := IndexOfChar(s, c);
    assert s[..|a|] == a;
    IndexOfCharUnique(s, c, |a|);
    assert s[..i] == a;
    assert s[i + 1..] == b;
  }

  /** Splitting distributes over a separator placed between two strings. */
  lemma {:induction false} SplitAppend(a: string, c: char, b: string)
    ensures Split(a + [c] + b, c) == Split(a, c) + Split(b, c)
    decreases |a|
  {
    if c in a {
      var i := IndexOfChar(a, c);
      var s := a + [c] + b;
      assert s[i] == c && c !in s[..i] by {
        assert s[..i] == a[..i];
      }
      assert IndexOfChar(s, c) == i by {
        IndexOfCharUnique(s, c, i);
      }
      assert s[..i] == a[..i];
      assert s[i + 1..] == a[i + 1..] + [c] + b;
      SplitAppend(a[i + 1..], c, b);
      assert Split(s, c) == [a[..i]] + Split(a[i + 1..] + [c] + b, c);
      assert Split(a, c) == [a[..i]] + Split(a[i + 1..], c);
    } else {
      SplitCons(a, c, b);
    }
  }

  lemma IndexOfCharUnique(s: string, c: char, i: nat)
    requires i < |s| && s[i] == c && c !in s[..i]
    ensures IndexOfChar(s, c) == i
  {
  }

  /** The first piece of `a + b` is `a` when `a` has no separator and `b` is empty or starts with one. */
  lemma SplitFirst(a: string, c: char, b: string)
    requires c !in a
    requires b == [] || b[0] == c
    ensures Split(a + b, c)[0] == a
  {
    if b == [] {
      assert a + b == a;
    } else {
      assert a + b == a + [c] + b[1..];
      SplitCons(a, c, b[1..]);
    }
  }

  /** The pieces that are not empty, in order. */
  function NonEmpty(parts: seq<string>): (r: seq<string>)
    ensures |r| <= |parts|
    ensures forall k :: 0 <= k < |r| ==> r[k] != [] && r[k] in parts
  {
    if parts == [] then []
    else if parts[0] == [] then NonEmpty(parts[1..])
    else [parts[0]] + NonEmpty(parts[1..])
  }

  lemma {:induction false} NonEmptyAppend(a: seq<string>, b: seq<string>)
    ensures NonEmpty(a + b) == NonEmpty(a) + NonEmpty(b)
  {
    if a != [] {
      assert (a + b)[1..] == a[1..] + b;
      NonEmptyAppend(a[1..], b);
    } else {
      assert a + b == b;
    }
  }

  /** The non-empty `c`-separated segments of `s`. */
  function Segments(s: string, c: char): seq<string> {
    NonEmpty(Split(s, c))
  }

  lemma SegmentsAppend(a: string, c: char, b: string)
    ensures Segments(a + [c] + b, c) == Segments(a, c) + Segments(b, c)
  {
    SplitAppend(a, c, b);
    NonEmptyAppend(Split(a, c), Split(b, c));
  }

  /** A non-empty string without the separator is a single segment. */
  lemma SegmentsSingle(a: string, c: char)
    requires a != [] && c !in a
    ensures Segments(a, c) == [a]
  {
    SplitNoSep(a, c);
  }

  /** Everything before the first character from `stops` (the first piece of a multi-separator split). */
  function TakeUntil(s: string, stops: set<char>): (r: string)
    ensures |r| <= |s| && r == s[..|r|]
    ensures forall k :: 0 <= k < |r| ==> r[k] !in stops
    ensures |r| < |s| ==> s[|r|] in stops
  {
    if s == [] || s[0] in stops then [] else [s[0]] + TakeUntil(s[1..], stops)
  }

  lemma {:induction false} TakeUntilWhole(a: string, b: string, stops: set<char>)
    requires forall k :: 0 <= k < |a| ==> a[k] !in stops
    requires b == [] || b[0] in stops
    ensures TakeUntil(a + b, stops) == a
    decreases |a|
  {
    if a == [] {
      assert a + b == b;
    } else {
      assert (a + b)[1..] == a[1..] + b;
      TakeUntilWhole(a[1..], b, stops);
    }
  }

  /**
   * The piece between the first and the second occurrence of `p` (or the end):
   * Rust's `s.split(p).nth(1)`.
   */
  function SecondPiece(s: string, p: string): (r: Option<string>)
    requires p != []
    ensures r.Some? <==> Contains(s, p)
  {
    match Find(s, p)
    case None => None
    case Some(i) =>
      var rest := s[i + |p|..];
      match Find(rest, p)
      case None => Some(rest)
      case Some(j) => Some(rest[..j])
  }

  /** Everything before the first occurrence of `p`: Rust's `s.split(p).next()`. */
  function Before(s: string, p: string): (r: string)
    ensures |r| <= |s| && r == s[..|r|]
    ensures Contains(s, p) ==> OccursAt(s, p, |r|)
    ensures !Contains(s, p) ==> r == s
  {
    match Find(s, p)
    case None => s
    case Some(i) => s[..i]
  }

  /** Rust's `split_once(c)`. */
  function SplitOnce(s: string, c: char): (r: Option<(string, string)>)
    ensures r.Some? <==> c in s
    ensures r.Some? ==> c !in r.value.0 && s == r.value.0 + [c] + r.value.1
  {
    if c in s then
      var i := IndexOfChar(s, c);
      assert s == s[..i] + [c] + s[i + 1..];
      Some((s[..i], s[i + 1..]))
    else None
  }

  /** Position of the last `c` in `s`. */
  function LastIndexOfChar(s: string, c: char): (i: nat)
    requires c in s
    ensures i < |s| && s[i] == c && c !in s[i + 1..]
    ensures forall k :: i < k < |s| ==> s[k] != c
  {
    if s[|s| - 1] == c then |s| - 1
    else
      var j := LastIndexOfChar(s[..|s| - 1], c);
      assert s[j + 1..] == s[..|s| - 1][j + 1..] + [s[|s| - 1]];
      j
  }

  /** Rust's `rsplit_once(c)`: the split at the last `c`. */
  function RSplitOnce(s: string, c: char): (r: Option<(string, string)>)
    ensures r.Some? <==> c in s
    ensures r.Some? ==> c !in r.value.1 && s == r.value.0 + [c] + r.value.1
  {
    if c in s then
      var i := LastIndexOfChar(s, c);
      assert s == s[..i] + [c] + s[i + 1..];
      Some((s[..i], s[i + 1..]))
    else None
  }

  /** `split_once` finds the separator right after a separator-free head. */
  lemma SplitOnceOf(a: string, c: char, b: string)
    requires c !in a
    ensures SplitOnce(a + [c] + b, c) == Some((a, b))
  {
    var s := a + [c] + b;
    assert s[|a|] == c;
    assert s[..|a|] == a;
    IndexOfCharUnique(s, c, |a|);
    assert s[|a| + 1..] == b;
  }

  /** The text after the last `c` (all of `s` when there is none): Rust's `s.rsplit(c).next()`. */
  function AfterLast(s: string, c: char): (r: string)
    ensures c !in r
    ensures |r| <= |s| && r == s[|s| - |r|..]
  {
    match RSplitOnce(s, c)
    case None => s
    case Some(parts) => parts.1
  }

  /** The text after the last separator is the separator-free tail. */
  lemma AfterLastOf(a: string, c: char, b: string)
    requires c !in b
    ensures AfterLast(a + [c] + b, c) == b
  {
    var s := a + [c] + b;
    assert s[|a|] == c;
    assert forall k :: |a| < k < |s| ==> s[k] == b[k - |a| - 1];
    assert s[|a| + 1..] == b;
  }

  /* ------------------------------ trimming ------------------------------ */

  function TrimStart(s: string): (r: string)
    ensures |r| <= |s| && r == s[|s| - |r|..]
    ensures r == [] || !IsSpace(r[0])
    ensures forall k :: 0 <= k < |s| - |r| ==> IsSpace(s[k])
  {
    if s == [] || !IsSpace(s[0]) then s else TrimStart(s[1..])
  }

  function TrimEnd(s: string): (r: string)
    ensures |r| <= |s| && r == s[..|r|]
    ensures r == [] || !IsSpace(r[|r| - 1])
    ensures forall k :: |r| <= k < |s| ==> IsSpace(s[k])
  {
    if s == [] || !IsSpace(s[|s| - 1]) then s else TrimEnd(s[..|s| - 1])
  }

  /** Rust's `str::trim`. */
  function Trim(s: string): (r: string)
    ensures |r| <= |s|
    ensures r == [] || (!IsSpace(r[0]) && !IsSpace(r[|r| - 1]))
  {
    TrimEnd(TrimStart(s))
  }

  /** Trimming introduces no character. */
  lemma TrimNotIn(s: string, c: char)
    requires c !in s
    ensures c !in Trim(s)
  {
    var t := TrimStart(s);
    assert c !in t by {
      assert forall k :: 0 <= k < |t| ==> t[k] == s[|s| - |t| + k];
    }
    var r := TrimEnd(t);
    assert forall k :: 0 <= k < |r| ==> r[k] == t[k];
  }

  lemma TrimStartNoSpace(s: string)
    requires s == [] || !IsSpace(s[0])
    ensures TrimStart(s) == s
  {
  }

  lemma TrimEndNoSpace(s: string)
    requires s == [] || !IsSpace(s[|s| - 1])
    ensures TrimEnd(s) == s
  {
  }

  /** A string already free of surrounding whitespace is left as it is. */
  lemma TrimNoSpace(s: string)
    requires s == [] || (!IsSpace(s[0]) && !IsSpace(s[|s| - 1]))
    ensures Trim(s) == s
  {
  }

  lemma {:induction false} TrimStartAppend(a: string, b: string)
    requires b != [] && !IsSpace(b[0])
    ensures TrimStart(a + b) == TrimStart(a) + b
    decreases |a|
  {
    if a == [] {
      assert a + b == b;
    } else if IsSpace(a[0]) {
      assert (a + b)[1..] == a[1..] + b;
      TrimStartAppend(a[1..], b);
    }
  }

  function TrimStartChars(s: string, cs: set<char>): (r: string)
    ensures |r| <= |s| && r == s[|s| - |r|..]
    ensures r == [] || r[0] !in cs
  {
    if s == [] || s[0] !in cs then s else TrimStartChars(s[1..], cs)
  }

  function TrimEndChars(s: string, cs: set<char>): (r: string)
    ensures |r| <= |s| && r == s[..|r|]
    ensures r == [] || r[|r| - 1] !in cs
    ensures forall k :: |r| <= k < |s| ==> s[k] in cs
  {
    if s == [] || s[|s| - 1] !in cs then s else TrimEndChars(s[..|s| - 1], cs)
  }

  /** Trimming the end only reaches into `a` when all of `b` is trimmed and `a` ends in a trimmed character. */
  lemma {:induction false} TrimEndCharsAppend(a: string, b: string, cs: set<char>)
    requires a != [] && a[|a| - 1] !in cs
    ensures TrimEndChars(a + b, cs) == a + TrimEndChars(b, cs)
    decreases |b|
  {
    if b == [] {
      assert a + b == a;
    } else if b[|b| - 1] in cs {
      assert (a + b)[..|a + b| - 1] == a + b[..|b| - 1];
      TrimEndCharsAppend(a, b[..|b| - 1], cs);
    }
  }

  /** A string made only of trimmed characters trims to nothing. */
  lemma TrimEndCharsAll(s: string, cs: set<char>)
    requires forall k :: 0 <= k < |s| ==> s[k] in cs
    ensures TrimEndChars(s, cs) == []
  {
  }

  /** Rust's `trim_matches` with a character predicate given as a set. */
  function TrimChars(s: string, cs: set<char>): string {
    TrimEndChars(TrimStartChars(s, cs), cs)
  }

  /** Rust's `trim_start_matches(p)`: every leading repetition of `p` is removed. */
  function TrimStartMatches(s: string, p: string): (r: string)
    ensures |r| <= |s| && r == s[|s| - |r|..]
    decreases |s|
  {
    if p != [] && |p| <= |s| && s[..|p|] == p then TrimStartMatches(s[|p|..], p) else s
  }

  /** `trim_start_matches` with a non-empty pattern leaves a text that no longer starts with it. */
  lemma {:induction false} TrimStartMatchesLeaves(s: string, p: string)
    requires p != []
    ensures !(p <= TrimStartMatches(s, p))
    decreases |s|
  {
    if |p| <= |s| && s[..|p|] == p {
      TrimStartMatchesLeaves(s[|p|..], p);
    }
  }

  /** Rust's `strip_prefix(p)`. */
  function StripPrefix(s: string, p: string): (r: Option<string>)
    ensures r.Some? <==> p <= s
    ensures r.Some? ==> s == p + r.value
  {
    if p <= s then Some(s[|p|..]) else None
  }

  /* ------------------------------ replacing ------------------------------ */

  /** Rust's `str::replace(p, rep)`: non-overlapping occurrences, scanned left to right. */
  function Replace(s: string, p: string, rep: string): string
    requires p != []
    decreases |s|
  {
    if OccursAt(s, p, 0) then rep + Replace(s[|p|..], p, rep)
    else if s == [] then []
    else [s[0]] + Replace(s[1..], p, rep)
  }

  /** Replacing a pattern that does not occur changes nothing. */
  lemma {:induction false} ReplaceAbsent(s: string, p: string, rep: string)
    requires p != [] && !Contains(s, p)
    ensures Replace(s, p, rep) == s
    decreases |s|
  {
    if s != [] {
      assert !OccursAt(s, p, 0);
      if Contains(s[1..], p) {
        var j := Find(s[1..], p).value;
        assert s[1..][j..j + |p|] == s[j + 1..j + 1 + |p|];
        ContainsAt(s, p, j + 1);
      }
      ReplaceAbsent(s[1..], p, rep);
    }
  }

  lemma OccursShift(s: string, p: string, i: nat)
    requires s != []
    ensures OccursAt(s[1..], p, i) <==> OccursAt(s, p, i + 1)
  {
    if i + |p| <= |s[1..]| {
      assert s[1..][i..i + |p|] == s[i + 1..i + 1 + |p|];
    }
  }

  /** Text in front of which no occurrence starts is copied through unchanged. */
  lemma {:induction false} ReplaceAppend(u: string, t: string, p: string, rep: string)
    requires p != []
    requires forall i :: 0 <= i < |u| ==> !OccursAt(u + t, p, i)
    ensures Replace(u + t, p, rep) == u + Replace(t, p, rep)
    decreases |u|
  {
    if u == [] {
      assert u + t == t;
    } else {
      var s := u + t;
      var u' := u[1..];
      assert !OccursAt(s, p, 0);
      assert s[1..] == u' + t;
      ReplaceStep(s, p, rep);
      forall i | 0 <= i < |u'|
        ensures !OccursAt(u' + t, p, i)
      {
        OccursShift(s, p, i);
      }
      ReplaceAppend(u', t, p, rep);
      assert u == [u[0]] + u';
      assert s[0] == u[0];
    }
  }

  /** One step of `Replace` where the pattern does not start the text. */
  lemma ReplaceStep(s: string, p: string, rep: string)
    requires p != [] && s != [] && !OccursAt(s, p, 0)
    ensures Replace(s, p, rep) == [s[0]] + Replace(s[1..], p, rep)
  {
  }

  /** A head-unique pattern appended to text that lacks it is removed exactly. */
  lemma RemoveAppended(u: string, p: string, t: string)
    requires HeadUnique(p) && !Contains(u, p)
    ensures Replace(u + p + t, p, []) == u + Replace(t, p, [])
  {
    var w := p + t;
    assert u + p + t == u + w;
    NoOccurrenceInFront(u, w, p);
    ReplaceAppend(u, w, p, []);
    ReplaceMatchStep(w, p, []);
    assert w[|p|..] == t;
  }

  /** No occurrence starts inside `u` when `u` lacks a head-unique pattern that starts `w`. */
  lemma NoOccurrenceInFront(u: string, w: string, p: string)
    requires HeadUnique(p) && !Contains(u, p) && p <= w
    ensures forall i :: 0 <= i < |u| ==> !OccursAt(u + w, p, i)
  {
    forall i | 0 <= i < |u|
      ensures !OccursAt(u + w, p, i)
    {
      if OccursAt(u + w, p, i) {
        NoStraddle(u, w, p, i);
        ContainsAt(u, p, i);
      }
    }
  }

  /** One step of `Replace` where the pattern starts the text. */
  lemma ReplaceMatchStep(s: string, p: string, rep: string)
    requires p != [] && p <= s
    ensures Replace(s, p, rep) == rep + Replace(s[|p|..], p, rep)
  {
    assert OccursAt(s, p, 0) by { assert s[0..|p|] == p; }
  }
}
