/** Strings of the catalog tool: lexicographic order, sorting, slash-separated paths, blankness. */
module CatalogText {
  import Unicode

  // ---------- lexicographic order ----------

  /** Rust's `<` on `str`: the order of code points, which is that of the UTF-8 bytes. */
  predicate Less(a: string, b: string) {
    b != "" && (a == "" || a[0] < b[0] || (a[0] == b[0] && Less(a[1..], b[1..])))
  }

  lemma {:induction false} LessIsTransitive(a: string, b: string, c: string)
    requires Less(a, b) && Less(b, c)
    ensures Less(a, c)
  {
    if a != "" && a[0] == b[0] == c[0] {
      LessIsTransitive(a[1..], b[1..], c[1..]);
    }
  }

  /** Exactly one of `a < b`, `a == b` and `b < a`. */
  lemma {:induction false} LessIsTotal(a: string, b: string)
    ensures Less(a, b) || a == b || Less(b, a)
    ensures !(Less(a, b) && Less(b, a)) && !Less(a, a) && !Less(b, b)
  {
    if a != "" && b != "" {
      LessIsTotal(a[1..], b[1..]);
      assert a == [a[0]] + a[1..] && b == [b[0]] + b[1..];
    } else if a != "" {
      LessIsTotal(a[1..], b);
    } else if b != "" {
      LessIsTotal(a, b[1..]);
    }
  }

  /** The first place at which the two differ decides, and the shorter comes first if there is none. */
  lemma {:induction false} LessExactly(a: string, b: string)
    ensures Less(a, b) <==>
              exists k: nat :: k <= |a| && k <= |b| && a[..k] == b[..k] && DecidedAt(a, b, k)
  {
    if a != "" && b != "" && a[0] == b[0] {
      LessExactly(a[1..], b[1..]);
      if Less(a, b) {
        var k: nat :| k <= |a[1..]| && k <= |b[1..]| && a[1..][..k] == b[1..][..k] && DecidedAt(a[1..], b[1..], k);
        assert a[..k + 1] == [a[0]] + a[1..][..k] && b[..k + 1] == [b[0]] + b[1..][..k];
        assert DecidedAt(a, b, k + 1);
      }
      if exists k: nat :: k <= |a| && k <= |b| && a[..k] == b[..k] && DecidedAt(a, b, k) {
        var k: nat :| k <= |a| && k <= |b| && a[..k] == b[..k] && DecidedAt(a, b, k);
        assert a[1..][..k - 1] == a[..k][1..] && b[1..][..k - 1] == b[..k][1..];
        assert DecidedAt(a[1..], b[1..], k - 1);
      }
    } else {
      if Less(a, b) {
        assert a[..0] == b[..0] && DecidedAt(a, b, 0);
      }
      if exists k: nat :: k <= |a| && k <= |b| && a[..k] == b[..k] && DecidedAt(a, b, k) {
        var k: nat :| k <= |a| && k <= |b| && a[..k] == b[..k] && DecidedAt(a, b, k);
        SameStart(a, b, k);
      }
    }
  }

  lemma SameStart(a: string, b: string, k: nat)
    requires k <= |a| && k <= |b| && a[..k] == b[..k]
    ensures k > 0 ==> a[0] == b[0]
  {
    if k > 0 {
      assert a[..k][0] == b[..k][0];
    }
  }

  /** At `k`, `b` goes on and `a` has ended or has the smaller character. */
  predicate DecidedAt(a: string, b: string, k: nat)
    requires k <= |a| && k <= |b|
  {
    k < |b| && (k == |a| || a[k] < b[k])
  }

  /** Strictly increasing: sorted and without duplicates. */
  ghost predicate Increasing(s: seq<string>) {
    forall i, j :: 0 <= i < j < |s| ==> Less(s[i], s[j])
  }

  ghost predicate Sorted(s: seq<string>) {
    forall i, j :: 0 <= i < j < |s| ==> s[i] == s[j] || Less(s[i], s[j])
  }

  /** Comparing neighbours is enough. */
  lemma {:induction false} NeighboursSuffice(s: seq<string>)
    requires forall i :: 0 < i < |s| ==> Less(s[i - 1], s[i])
    ensures Increasing(s)
  {
    if |s| >= 2 {
      NeighboursSuffice(s[..|s| - 1]);
      forall i, j | 0 <= i < j < |s|
        ensures Less(s[i], s[j])
      {
        if j == |s| - 1 && i < j - 1 {
          assert Less(s[..|s| - 1][i], s[..|s| - 1][j - 1]);
          LessIsTransitive(s[i], s[j - 1], s[j]);
        } else if j < |s| - 1 {
          assert Less(s[..|s| - 1][i], s[..|s| - 1][j]);
        }
      }
    }
  }

  lemma SomeElement(s: seq<string>)
    requires s != []
    ensures exists x :: x in s
  {
    assert s[0] in s;
  }

  /** A strictly increasing sequence is determined by its elements. */
  lemma {:induction false} IncreasingIsUnique(s: seq<string>, t: seq<string>)
    requires Increasing(s) && Increasing(t)
    requires forall x :: x in s <==> x in t
    ensures s == t
    decreases |s|
  {
    if s == [] {
      if t != [] {
        SomeElement(t);
        assert false;
      }
    } else {
      assert s[0] in t && t != [];
      assert t[0] in s;
      LessIsTotal(s[0], t[0]);
      assert s[0] == t[0];
      forall x
        ensures x in s[1..] <==> x in t[1..]
      {
        LessIsTotal(x, x);
        assert x in s <==> x in t;
        assert x in s[1..] ==> x != s[0];
        assert x in t[1..] ==> x != t[0];
      }
      IncreasingIsUnique(s[1..], t[1..]);
    }
  }

  /** Place `x` into a sorted sequence. */
  function Insert(s: seq<string>, x: string): (r: seq<string>)
    ensures multiset(r) == multiset(s) + multiset{x}
    ensures Sorted(s) ==> Sorted(r)
  {
    if s == [] then [x]
    else if Less(s[0], x) then
      var rest := Insert(s[1..], x);
      assert s == [s[0]] + s[1..];
      SortedAfter(s, x, rest);
      [s[0]] + rest
    else
      SortedBefore(s, x);
      [x] + s
  }

  lemma SortedAfter(s: seq<string>, x: string, rest: seq<string>)
    requires s != [] && Less(s[0], x)
    requires multiset(rest) == multiset(s[1..]) + multiset{x}
    requires Sorted(s[1..]) ==> Sorted(rest)
    ensures Sorted(s) ==> Sorted([s[0]] + rest)
  {
    if Sorted(s) {
      assert Sorted(s[1..]);
      forall j | 0 <= j < |rest|
        ensures s[0] == rest[j] || Less(s[0], rest[j])
      {
        assert rest[j] in multiset(rest);
        if rest[j] != x {
          assert rest[j] in s[1..];
        }
      }
    }
  }

  lemma SortedBefore(s: seq<string>, x: string)
    requires s != [] && !Less(s[0], x)
    ensures Sorted(s) ==> Sorted([x] + s)
  {
    if Sorted(s) {
      LessIsTotal(x, s[0]);
      forall j | 0 <= j < |s|
        ensures x == s[j] || Less(x, s[j])
      {
        if j > 0 && Less(x, s[0]) && Less(s[0], s[j]) {
          LessIsTransitive(x, s[0], s[j]);
        }
      }
    }
  }

  /** `Vec::sort`. */
  function Sort(s: seq<string>): (r: seq<string>)
    ensures multiset(r) == multiset(s) && Sorted(r)
  {
    if s == [] then []
    else
      assert s == s[..|s| - 1] + [s[|s| - 1]];
      Insert(Sort(s[..|s| - 1]), s[|s| - 1])
  }

  /** `Vec::dedup`: drop every element equal to its predecessor. */
  function Dedup(s: seq<string>): seq<string> {
    if |s| <= 1 then s
    else if s[0] == s[1] then Dedup(s[1..])
    else [s[0]] + Dedup(s[1..])
  }

  lemma {:induction false} DedupOfSorted(s: seq<string>)
    requires Sorted(s)
    ensures Increasing(Dedup(s))
    ensures forall x :: x in Dedup(s) <==> x in s
  {
    if |s| > 1 {
      DedupOfSorted(s[1..]);
      assert s == [s[0]] + s[1..];
      var rest := Dedup(s[1..]);
      if s[0] != s[1] {
        forall j | 0 <= j < |rest|
          ensures Less(s[0], rest[j])
        {
          assert rest[j] in s[1..];
          var k :| 1 <= k < |s| && s[k] == rest[j];
          if k > 1 && s[1] != s[k] {
            LessIsTransitive(s[0], s[1], s[k]);
          }
        }
      }
    }
  }

  /** Sorting and removing duplicates gives the one increasing sequence of the same elements. */
  lemma SortDedup(s: seq<string>)
    ensures Increasing(Dedup(Sort(s)))
    ensures forall x :: x in Dedup(Sort(s)) <==> x in s
  {
    DedupOfSorted(Sort(s));
    assert forall x :: x in Sort(s) <==> x in multiset(Sort(s));
    assert forall x :: x in s <==> x in multiset(s);
  }

  // ---------- stable sorting by a comparison ----------

  function InsertBy<T>(s: seq<T>, x: T, before: (T, T) -> bool): seq<T> {
    if s == [] || !before(x, s[|s| - 1]) then s + [x]
    else InsertBy(s[..|s| - 1], x, before) + [s[|s| - 1]]
  }

  /** `slice::sort_by`. */
  function SortBy<T>(s: seq<T>, before: (T, T) -> bool): seq<T> {
    if s == [] then [] else InsertBy(SortBy(s[..|s| - 1], before), s[|s| - 1], before)
  }

  /** No element belongs before an earlier one. */
  ghost predicate OrderedBy<T(!new)>(s: seq<T>, before: (T, T) -> bool) {
    forall i, j :: 0 <= i < j < |s| ==> !before(s[j], s[i])
  }

  /** A strict order whose ties are transitive. */
  ghost predicate StrictWeakOrder<T(!new)>(before: (T, T) -> bool) {
    && (forall x, y :: before(x, y) ==> !before(y, x))
    && (forall x, y, z :: !before(x, y) && !before(y, z) ==> !before(x, z))
  }

  lemma {:induction false} InsertBySorts<T(!new)>(s: seq<T>, x: T, before: (T, T) -> bool)
    requires StrictWeakOrder(before) && OrderedBy(s, before)
    ensures OrderedBy(InsertBy(s, x, before), before)
    ensures multiset(InsertBy(s, x, before)) == multiset(s) + multiset{x}
  {
    if s != [] && before(x, s[|s| - 1]) {
      var front, last := s[..|s| - 1], s[|s| - 1];
      InsertBySorts(front, x, before);
      assert s == front + [last];
      LastStaysLast(front, last, x, InsertBy(front, x, before), before);
    } else if s != [] {
      forall i | 0 <= i < |s|
        ensures !before(x, s[i])
      {
        assert i < |s| - 1 ==> !before(s[|s| - 1], s[i]);
      }
    }
  }

  lemma LastStaysLast<T(!new)>(front: seq<T>, last: T, x: T, r: seq<T>, before: (T, T) -> bool)
    requires StrictWeakOrder(before) && OrderedBy(front + [last], before) && before(x, last)
    requires OrderedBy(r, before) && multiset(r) == multiset(front) + multiset{x}
    ensures OrderedBy(r + [last], before)
  {
    var s := front + [last];
    assert s[|front|] == last && !before(last, x);
    forall i | 0 <= i < |r|
      ensures !before(last, r[i])
    {
      assert r[i] in multiset(r);
      if r[i] != x {
        assert r[i] in front;
        var k :| 0 <= k < |front| && front[k] == r[i];
        assert s[k] == r[i];
      }
    }
  }

  /** `sort_by` reorders into the order it is given. */
  lemma {:induction false} SortBySorts<T(!new)>(s: seq<T>, before: (T, T) -> bool)
    requires StrictWeakOrder(before)
    ensures OrderedBy(SortBy(s, before), before) && multiset(SortBy(s, before)) == multiset(s)
  {
    if s != [] {
      SortBySorts(s[..|s| - 1], before);
      InsertBySorts(SortBy(s[..|s| - 1], before), s[|s| - 1], before);
      assert s == s[..|s| - 1] + [s[|s| - 1]];
    }
  }

  /** Sorting leaves a list alone in which no element belongs before its predecessor. */
  lemma {:induction false} SortByKeepsSorted<T>(s: seq<T>, before: (T, T) -> bool)
    requires forall i :: 0 < i < |s| ==> !before(s[i], s[i - 1])
    ensures SortBy(s, before) == s
  {
    if s != [] {
      SortByKeepsSorted(s[..|s| - 1], before);
      assert s == s[..|s| - 1] + [s[|s| - 1]];
    }
  }

  /** The keys of a `BTreeMap` or `BTreeSet` in iteration order. */
  method Ascending(keys: set<string>) returns (s: seq<string>)
    ensures Increasing(s)
    ensures forall x :: x in s <==> x in keys
  {
    var all: seq<string> := [];
    var rest := keys;
    while rest != {}
      invariant rest <= keys
      invariant forall x :: x in all <==> x in keys && x !in rest
      decreases rest
    {
      var key :| key in rest;
      rest := rest - {key};
      all := all + [key];
    }
    s := Dedup(Sort(all));
    SortDedup(all);
  }

  // ---------- paths ----------

  function BeforeSlash(path: string): (r: string)
    ensures |r| <= |path| && r == path[..|r|] && '/' !in r
    ensures |r| < |path| ==> path[|r|] == '/'
  {
    if path == "" || path[0] == '/' then "" else [path[0]] + BeforeSlash(path[1..])
  }

  /** `path.split('/')`. */
  function Segments(path: string): (r: seq<string>)
    ensures r != []
    decreases |path|
  {
    var first := BeforeSlash(path);
    if |first| == |path| then [first] else [first] + Segments(path[|first| + 1..])
  }

  /** `segments.join("/")`. */
  function Join(segments: seq<string>): string {
    if segments == [] then ""
    else if |segments| == 1 then segments[0]
    else segments[0] + "/" + Join(segments[1..])
  }

  ghost predicate SlashFree(segments: seq<string>) {
    forall i :: 0 <= i < |segments| ==> '/' !in segments[i]
  }

  lemma JoinStep(first: string, rest: seq<string>)
    requires rest != []
    ensures Join([first] + rest) == first + "/" + Join(rest)
  {
  }

  lemma {:induction false} JoinOfSegments(path: string)
    ensures Join(Segments(path)) == path && SlashFree(Segments(path))
    decreases |path|
  {
    var first := BeforeSlash(path);
    if |first| < |path| {
      var rest := path[|first| + 1..];
      JoinOfSegments(rest);
      JoinStep(first, Segments(rest));
      assert path == first + "/" + rest;
    }
  }

  lemma {:induction false} BeforeSlashOf(first: string, rest: string)
    requires '/' !in first
    ensures BeforeSlash(first) == first
    ensures BeforeSlash(first + "/" + rest) == first
  {
    if first != "" {
      assert (first + "/" + rest)[1..] == first[1..] + "/" + rest;
      BeforeSlashOf(first[1..], rest);
    }
  }

  lemma SegmentsStep(first: string, rest: string)
    requires '/' !in first
    ensures Segments(first + "/" + rest) == [first] + Segments(rest)
  {
    BeforeSlashOf(first, rest);
    assert (first + "/" + rest)[|first| + 1..] == rest;
  }

  /** Splitting undoes joining for segments without slashes. */
  lemma {:induction false} SegmentsOfJoin(segments: seq<string>)
    requires segments != [] && SlashFree(segments)
    ensures Segments(Join(segments)) == segments
  {
    if |segments| == 1 {
      BeforeSlashOf(segments[0], "");
    } else {
      SegmentsOfJoin(segments[1..]);
      SegmentsStep(segments[0], Join(segments[1..]));
    }
  }

  /** A character occurs in a joined path if it is the separator or occurs in a segment. */
  lemma {:induction false} CharInJoin(segments: seq<string>, c: char)
    requires c != '/'
    ensures c in Join(segments) <==> exists i :: 0 <= i < |segments| && c in segments[i]
  {
    if |segments| == 1 {
      assert c in Join(segments) ==> c in segments[0];
    } else if |segments| > 1 {
      CharInJoin(segments[1..], c);
      assert Join(segments) == segments[0] + "/" + Join(segments[1..]);
      if c in segments[0] {
        assert 0 <= 0 < |segments| && c in segments[0];
      }
      if exists i :: 0 <= i < |segments[1..]| && c in segments[1..][i] {
        var i :| 0 <= i < |segments[1..]| && c in segments[1..][i];
        assert c in segments[i + 1];
      }
      if exists i :: 0 <= i < |segments| && c in segments[i] {
        var i :| 0 <= i < |segments| && c in segments[i];
        if i > 0 {
          assert c in segments[1..][i - 1];
        }
      }
    }
  }

  // ---------- blank text ----------

  /** The Unicode White_Space property. */
  predicate IsWhitespace(c: char) {
    var n := c as int;
    || 0x09 <= n <= 0x0D
    || n in {0x20, 0x85, 0xA0, 0x1680, 0x2028, 0x2029, 0x202F, 0x205F, 0x3000}
    || 0x2000 <= n <= 0x200A
  }

  /** `text.trim().is_empty()`. */
  predicate IsBlank(text: string) {
    forall i :: 0 <= i < |text| ==> IsWhitespace(text[i])
  }

  /** A text is blank if and only if it consists of characters with the White_Space property. */
  lemma BlankExactly(text: string)
    ensures IsBlank(text) <==> forall c :: c in text ==> c as int in Unicode.WHITE_SPACE
  {
    forall c: char
      ensures IsWhitespace(c) <==> c as int in Unicode.WHITE_SPACE
    {
      WhitespaceExactly(c);
    }
    assert forall i :: 0 <= i < |text| ==> text[i] in text;
  }

  lemma WhitespaceExactly(c: char)
    ensures IsWhitespace(c) <==> c as int in Unicode.WHITE_SPACE
  {
    var n := c as int;
    if 0x2000 <= n <= 0x200A {
      assert Unicode.WHITE_SPACE[9 + (n - 0x2000)] == n;
    } else if 0x09 <= n <= 0x0D {
      assert Unicode.WHITE_SPACE[n - 9] == n;
    }
  }
}
