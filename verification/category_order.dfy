/**
 * The order of the category sidebar on the server listing page: a stable sort
 * with a three-tier comparator. Titles on the curated list come first, in
 * list order; then titles by chapter number; then by title.
 */
module CategoryOrder {
  import JsText
  import opened Content

  /** `Number.MAX_SAFE_INTEGER`, the key of a title that no tier recognises. */
  const MaxSafeInteger: int := 9007199254740991

  const ChapterOrder: seq<string> := ["一章", "二章", "三章", "四章", "五章", "六章", "七章"]

  /** The curated order: exact titles, first to last. */
  const DesiredOrderTitles: seq<string> := [
    "一章【これからのカネの話】勤め人卒業へ",
    "二章【これからの女の話】オナ禁でモテる法",
    "三章【これからのカネの話】カネの話",
    "四章【これからの女の話】恋愛エッセイ",
    "五章【これからのカネの話】資本家になろう",
    "六章【これからの女の話】全てはモテるため",
    "七章【これからのカネの話】税金とか会計"
  ]

  /** `xs.indexOf(x)`: the first position holding `x`, or -1. */
  function IndexOf(xs: seq<string>, x: string): (r: int)
    ensures -1 <= r < |xs|
    ensures r == -1 <==> x !in xs
    ensures r >= 0 ==> xs[r] == x && x !in xs[..r]
  {
    if xs == [] then -1
    else if xs[0] == x then 0
    else
      var k := IndexOf(xs[1..], x);
      assert xs[1..][..if k >= 0 then k else 0] == xs[1..1 + if k >= 0 then k else 0];
      if k == -1 then -1 else k + 1
  }

  /** `orderIndex`: position on the curated list; -1 for an empty or unlisted title. */
  function OrderIndex(title: string): (r: int)
    ensures -1 <= r < |DesiredOrderTitles|
    ensures r == -1 <==> title !in DesiredOrderTitles
    ensures r >= 0 ==> DesiredOrderTitles[r] == title
  {
    if title == "" then -1 else IndexOf(DesiredOrderTitles, title)
  }

  /** `.replace(/^第/, "")`: one leading 第 removed. */
  function StripChapterMarker(s: string): string {
    if s != [] && s[0] == '第' then s[1..] else s
  }

  /** `getChapterIndex`: the chapter a title names, once white space and one leading 第 are stripped. */
  function ChapterIndex(title: string): (r: int)
    ensures r == MaxSafeInteger || 0 <= r < |ChapterOrder|
    ensures r < MaxSafeInteger ==> ChapterOrder[r] == StripChapterMarker(JsText.StripWhitespace(title))
    ensures title != "" && StripChapterMarker(JsText.StripWhitespace(title)) in ChapterOrder ==> r < MaxSafeInteger
  {
    if title == "" then MaxSafeInteger
    else
      var idx := IndexOf(ChapterOrder, StripChapterMarker(JsText.StripWhitespace(title)));
      if idx == -1 then MaxSafeInteger else idx
  }

  /** The comparator handed to `sort`, tier by tier as written. */
  function Compare(a: CategoryWithCount, b: CategoryWithCount): int {
    var ai := OrderIndex(a.title);
    var bi := OrderIndex(b.title);
    var av := if ai == -1 then MaxSafeInteger else ai;
    var bv := if bi == -1 then MaxSafeInteger else bi;
    if (ai != -1 || bi != -1) && av != bv then av - bv
    else
      var ca := ChapterIndex(a.title);
      var cb := ChapterIndex(b.title);
      if ca != cb then ca - cb
      else JsText.LocaleCompare(a.title, b.title)
  }

  // ---------------------------------------------------------------------
  // The comparator as a comparison of keys

  /** First tier as a key: the curated position, or past every position. */
  function Rank(title: string): (r: int)
    ensures 0 <= r <= MaxSafeInteger
    ensures r < MaxSafeInteger <==> OrderIndex(title) != -1
  {
    var i := OrderIndex(title);
    if i == -1 then MaxSafeInteger else i
  }

  /**
   * The independent reading of the comparator: titles ordered by the triple
   * (curated rank, chapter index, title), lexicographically.
   */
  predicate KeyBefore(s: string, t: string) {
    || Rank(s) < Rank(t)
    || (Rank(s) == Rank(t) && ChapterIndex(s) < ChapterIndex(t))
    || (Rank(s) == Rank(t) && ChapterIndex(s) == ChapterIndex(t) && JsText.LocaleCompare(s, t) < 0)
  }

  /** The comparator says "before" exactly when the key says so, and "equal" exactly for equal titles. */
  lemma CompareIsKeyOrder(a: CategoryWithCount, b: CategoryWithCount)
    ensures Compare(a, b) < 0 <==> KeyBefore(a.title, b.title)
    ensures Compare(a, b) == 0 <==> a.title == b.title
    ensures Compare(a, b) > 0 <==> KeyBefore(b.title, a.title)
  {
    JsText.LocaleCompareZero(a.title, b.title);
    JsText.LocaleCompareAntisymmetric(a.title, b.title);
    if a.title == b.title {
      assert Rank(a.title) == Rank(b.title);
    }
  }

  lemma CompareTransitive(a: CategoryWithCount, b: CategoryWithCount, c: CategoryWithCount)
    requires Compare(a, b) <= 0 && Compare(b, c) <= 0
    ensures Compare(a, c) <= 0
  {
    CompareIsKeyOrder(a, b);
    CompareIsKeyOrder(b, c);
    CompareIsKeyOrder(a, c);
    if Rank(a.title) == Rank(b.title) == Rank(c.title)
      && ChapterIndex(a.title) == ChapterIndex(b.title) == ChapterIndex(c.title)
    {
      JsText.LocaleCompareZero(a.title, b.title);
      JsText.LocaleCompareZero(b.title, c.title);
      if JsText.LocaleCompare(a.title, b.title) <= 0 && JsText.LocaleCompare(b.title, c.title) <= 0 {
        JsText.LocaleCompareTransitive(a.title, b.title, c.title);
      }
    }
  }

  lemma CompareTotal(a: CategoryWithCount, b: CategoryWithCount)
    ensures Compare(a, b) <= 0 || Compare(b, a) <= 0
  {
    CompareIsKeyOrder(a, b);
    CompareIsKeyOrder(b, a);
  }

  // ---------------------------------------------------------------------
  // The sort

  predicate Sorted(cs: seq<CategoryWithCount>) {
    forall i, j :: 0 <= i < j < |cs| ==> Compare(cs[i], cs[j]) <= 0
  }

  /** Puts `c` before the first entry it does not follow, keeping it ahead of equal titles. */
  function Insert(c: CategoryWithCount, sorted: seq<CategoryWithCount>): (r: seq<CategoryWithCount>)
    ensures multiset(r) == multiset(sorted) + multiset{c}
    ensures Sorted(sorted) ==> Sorted(r)
  {
    if sorted == [] then [c]
    else if Compare(c, sorted[0]) <= 0 then
      InsertFrontSorted(c, sorted);
      [c] + sorted
    else
      var rest := Insert(c, sorted[1..]);
      assert multiset(sorted) == multiset{sorted[0]} + multiset(sorted[1..]) by {
        assert sorted == [sorted[0]] + sorted[1..];
      }
      InsertBehindSorted(c, sorted, rest);
      [sorted[0]] + rest
  }

  lemma InsertFrontSorted(c: CategoryWithCount, sorted: seq<CategoryWithCount>)
    requires sorted != [] && Compare(c, sorted[0]) <= 0
    ensures Sorted(sorted) ==> Sorted([c] + sorted)
  {
    if Sorted(sorted) {
      var r := [c] + sorted;
      forall i, j | 0 <= i < j < |r| ensures Compare(r[i], r[j]) <= 0 {
        if i == 0 && j > 1 {
          CompareTransitive(c, sorted[0], sorted[j - 1]);
        }
      }
    }
  }

  lemma InsertBehindSorted(c: CategoryWithCount, sorted: seq<CategoryWithCount>, rest: seq<CategoryWithCount>)
    requires sorted != [] && Compare(c, sorted[0]) > 0
    requires multiset(rest) == multiset(sorted[1..]) + multiset{c}
    requires Sorted(sorted) ==> Sorted(rest)
    ensures Sorted(sorted) ==> Sorted([sorted[0]] + rest)
  {
    if Sorted(sorted) {
      var r := [sorted[0]] + rest;
      forall j | 0 < j < |r| ensures Compare(sorted[0], r[j]) <= 0 {
        var x := r[j];
        assert x in multiset(rest) by { assert x == rest[j - 1]; }
        if x == c {
          CompareTotal(c, sorted[0]);
        } else {
          assert x in multiset(sorted[1..]);
          var k :| 0 <= k < |sorted[1..]| && sorted[1..][k] == x;
          assert sorted[k + 1] == x;
        }
      }
    }
  }

  /**
   * `[...categories].sort(compare)`. Array sort is stable, and a stable sort
   * under a total preorder has a single possible result, which this
   * insertion sort computes.
   */
  function SortCategories(cs: seq<CategoryWithCount>): (r: seq<CategoryWithCount>)
    ensures multiset(r) == multiset(cs)
    ensures Sorted(r)
  {
    if cs == [] then []
    else
      assert cs == [cs[0]] + cs[1..];
      Insert(cs[0], SortCategories(cs[1..]))
  }

  /**
   * The tiers in a sorted sidebar: curated titles precede all others and
   * follow the curated order; among the rest, chapter order, then title order.
   */
  lemma SortedTiers(cs: seq<CategoryWithCount>, i: int, j: int)
    requires Sorted(cs) && 0 <= i < j < |cs|
    ensures OrderIndex(cs[j].title) != -1 ==>
              OrderIndex(cs[i].title) != -1 && OrderIndex(cs[i].title) <= OrderIndex(cs[j].title)
    ensures OrderIndex(cs[i].title) == -1 && OrderIndex(cs[j].title) == -1 ==>
              ChapterIndex(cs[i].title) <= ChapterIndex(cs[j].title)
    ensures OrderIndex(cs[i].title) == -1 && OrderIndex(cs[j].title) == -1
            && ChapterIndex(cs[i].title) == ChapterIndex(cs[j].title) ==>
              JsText.LocaleCompare(cs[i].title, cs[j].title) <= 0
  {
    CompareIsKeyOrder(cs[i], cs[j]);
    JsText.LocaleCompareZero(cs[i].title, cs[j].title);
  }

  /** Sorting a sidebar that is already in order leaves it exactly as it is. */
  lemma {:induction false} SortKeepsSorted(cs: seq<CategoryWithCount>)
    requires Sorted(cs)
    ensures SortCategories(cs) == cs
  {
    if cs != [] {
      assert Sorted(cs[1..]) by {
        forall i, j | 0 <= i < j < |cs[1..]| ensures Compare(cs[1..][i], cs[1..][j]) <= 0 {
          assert cs[1..][i] == cs[i + 1] && cs[1..][j] == cs[j + 1];
        }
      }
      SortKeepsSorted(cs[1..]);
      if |cs| > 1 {
        assert Compare(cs[0], cs[1..][0]) <= 0;
      }
      assert cs == [cs[0]] + cs[1..];
    }
  }

  /** Sorting twice gives the order sorting once gave. */
  lemma SortIdempotent(cs: seq<CategoryWithCount>)
    ensures SortCategories(SortCategories(cs)) == SortCategories(cs)
  {
    SortKeepsSorted(SortCategories(cs));
  }

  // ---------------------------------------------------------------------
  // Stability

  /** The categories titled `t`, in the order they appear. */
  function WithTitle(cs: seq<CategoryWithCount>, t: string): seq<CategoryWithCount> {
    if cs == [] then [] else (if cs[0].title == t then [cs[0]] else []) + WithTitle(cs[1..], t)
  }

  /** `Insert` puts a category ahead of every category with the same title. */
  lemma {:induction false} InsertWithTitle(c: CategoryWithCount, sorted: seq<CategoryWithCount>, t: string)
    ensures WithTitle(Insert(c, sorted), t) == (if c.title == t then [c] else []) + WithTitle(sorted, t)
  {
    if sorted == [] {
      assert Insert(c, sorted) == [c] + sorted;
      WithTitleCons(c, sorted, t);
    } else if Compare(c, sorted[0]) <= 0 {
      assert Insert(c, sorted) == [c] + sorted;
      WithTitleCons(c, sorted, t);
    } else {
      InsertWithTitle(c, sorted[1..], t);
      InsertBehindWithTitle(c, sorted, t);
    }
  }

  lemma InsertBehindWithTitle(c: CategoryWithCount, sorted: seq<CategoryWithCount>, t: string)
    requires sorted != [] && Compare(c, sorted[0]) > 0
    requires WithTitle(Insert(c, sorted[1..]), t) == (if c.title == t then [c] else []) + WithTitle(sorted[1..], t)
    ensures WithTitle(Insert(c, sorted), t) == (if c.title == t then [c] else []) + WithTitle(sorted, t)
  {
    var rest := Insert(c, sorted[1..]);
    assert Insert(c, sorted) == [sorted[0]] + rest;
    CompareIsKeyOrder(c, sorted[0]);
    assert sorted == [sorted[0]] + sorted[1..];
    WithTitleSwap(sorted[0], c, rest, sorted[1..], t);
  }

  /** Moving `c` past a category with another title leaves every title's subsequence as it was. */
  lemma WithTitleSwap(a: CategoryWithCount, c: CategoryWithCount, rest: seq<CategoryWithCount>,
                      tail: seq<CategoryWithCount>, t: string)
    requires a.title != c.title
    requires WithTitle(rest, t) == (if c.title == t then [c] else []) + WithTitle(tail, t)
    ensures WithTitle([a] + rest, t) == (if c.title == t then [c] else []) + WithTitle([a] + tail, t)
  {
    WithTitleCons(a, rest, t);
    WithTitleCons(a, tail, t);
  }

  lemma WithTitleCons(c: CategoryWithCount, cs: seq<CategoryWithCount>, t: string)
    ensures WithTitle([c] + cs, t) == (if c.title == t then [c] else []) + WithTitle(cs, t)
  {
    assert ([c] + cs)[1..] == cs;
  }

  /**
   * The sort is stable: categories with equal titles, which the comparator
   * ranks equal, come out in the order they came in.
   */
  lemma {:induction false} SortStable(cs: seq<CategoryWithCount>, t: string)
    ensures WithTitle(SortCategories(cs), t) == WithTitle(cs, t)
  {
    if cs != [] {
      SortStable(cs[1..], t);
      InsertWithTitle(cs[0], SortCategories(cs[1..]), t);
    }
  }
}
