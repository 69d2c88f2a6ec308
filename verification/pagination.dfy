/**
 * The pagination bar of the blog listing: page 1, a window of pages around
 * the current one, the last page, and a 'dots' marker wherever pages are
 * skipped. Both listing pages carry the same `createPagination`.
 */
module Pagination {
  import opened Seqs

  /** One entry of the bar: a page number or the 'dots' marker. */
  datatype Item = Num(n: int) | Dots

  /** Pages lo, lo+1, ..., hi-1; nothing when hi <= lo. */
  function Run(lo: int, hi: int): (r: seq<Item>)
    ensures |r| == Max(hi - lo, 0)
    ensures forall i :: 0 <= i < |r| ==> r[i] == Num(lo + i)
  {
    if hi <= lo then [] else seq(hi - lo, i => Num(lo + i))
  }

  /** Entries the bar may hold: page 1, the last page, the window and two 'dots'. */
  function Budget(siblingCount: nat): nat {
    siblingCount * 2 + 5
  }

  function LeftSibling(current: int, siblingCount: nat): int {
    Max(current - siblingCount, 2)
  }

  function RightSibling(current: int, total: int, siblingCount: nat): int {
    Min(current + siblingCount, total - 1)
  }

  /**
   * The bar as a value. When every page fits the budget, all of them;
   * otherwise page 1, a 'dots' if the window starts after page 2, the window,
   * a 'dots' if the window ends before the next-to-last page, and the last page.
   */
  function PageItems(current: int, total: int, siblingCount: nat): seq<Item> {
    if total <= Budget(siblingCount) then Run(1, total + 1)
    else
      var left := LeftSibling(current, siblingCount);
      var right := RightSibling(current, total, siblingCount);
      [Num(1)] + (if left > 2 then [Dots] else []) + Run(left, right + 1)
        + (if right < total - 1 then [Dots] else []) + [Num(total)]
  }

  /** Page numbers rise strictly from left to right, so none repeats. */
  predicate NumbersIncreasing(items: seq<Item>) {
    forall i, j :: 0 <= i < j < |items| && items[i].Num? && items[j].Num? ==> items[i].n < items[j].n
  }

  predicate NumbersWithin(items: seq<Item>, lo: int, hi: int) {
    forall i :: 0 <= i < |items| && items[i].Num? ==> lo <= items[i].n <= hi
  }

  /**
   * Two neighbouring numbers are consecutive pages, and a 'dots' always sits
   * between two numbers and stands for at least one page left out.
   */
  predicate GapsMarked(items: seq<Item>) {
    && (forall i :: 0 <= i < |items| - 1 && items[i].Num? && items[i + 1].Num? ==>
          items[i + 1].n == items[i].n + 1)
    && (forall i :: 0 <= i < |items| && items[i].Dots? ==>
          0 < i < |items| - 1 && items[i - 1].Num? && items[i + 1].Num? && items[i + 1].n > items[i - 1].n + 1)
  }

  /** `for (let i = lo; i < hi; i++) pages.push(i)`: pushes pages lo..hi-1 in order. */
  method PushRange(pages: seq<Item>, lo: int, hi: int) returns (grown: seq<Item>)
    ensures grown == pages + Run(lo, hi)
  {
    grown := pages;
    var i := lo;
    while i < hi
      invariant lo <= i <= Max(hi, lo)
      invariant grown == pages + Run(lo, i)
    {
      grown := grown + [Num(i)];
      i := i + 1;
    }
  }

  /**
   * `createPagination(current, total, siblingCount)`. The bar is grown by
   * pushes, as in the source, including the two `else` loops, which never
   * push anything: the left one runs from 2 up to a left sibling that is
   * then exactly 2, the right one from the last page up to itself.
   */
  method CreatePagination(current: int, total: int, siblingCount: nat) returns (pages: seq<Item>)
    ensures pages == PageItems(current, total, siblingCount)
  {
    var totalPageNumbers := siblingCount * 2 + 5;
    if total <= totalPageNumbers {
      return seq(Max(total, 0), i => Num(i + 1));
    }
    var leftSibling := Max(current - siblingCount, 2);
    var rightSibling := Min(current + siblingCount, total - 1);
    var showLeftDots := leftSibling > 2;
    var showRightDots := rightSibling < total - 1;

    pages := [Num(1)];
    if showLeftDots {
      pages := pages + [Dots];
    } else {
      pages := PushRange(pages, 2, leftSibling);
      assert pages == [Num(1)];
    }
    pages := PushRange(pages, leftSibling, rightSibling + 1);
    if showRightDots {
      pages := pages + [Dots];
    } else {
      ghost var throughWindow := pages;
      pages := PushRange(pages, rightSibling + 1, total);
      assert pages == throughWindow;
    }
    pages := pages + [Num(total)];
  }

  /** The long form of the bar, entry by entry. */
  lemma LongLayout(current: int, total: int, siblingCount: nat)
    requires total > Budget(siblingCount)
    ensures var r := PageItems(current, total, siblingCount);
            var left := LeftSibling(current, siblingCount);
            var right := RightSibling(current, total, siblingCount);
            var ld := if left > 2 then 1 else 0;
            var w := Max(right + 1 - left, 0);
            var rd := if right < total - 1 then 1 else 0;
            && 2 <= left && right <= total - 1
            && |r| == 2 + ld + w + rd
            && r[0] == Num(1)
            && (ld == 1 ==> r[1] == Dots)
            && (forall i :: 1 + ld <= i < 1 + ld + w ==> r[i] == Num(left + i - 1 - ld))
            && (rd == 1 ==> r[1 + ld + w] == Dots)
            && r[|r| - 1] == Num(total)
  {
    var left := LeftSibling(current, siblingCount);
    var right := RightSibling(current, total, siblingCount);
    var a: seq<Item> := [Num(1)];
    var b: seq<Item> := if left > 2 then [Dots] else [];
    var c := Run(left, right + 1);
    var d: seq<Item> := if right < total - 1 then [Dots] else [];
    var r := PageItems(current, total, siblingCount);
    assert r == a + b + c + d + [Num(total)];
    forall i | |a + b| <= i < |a + b| + |c|
      ensures r[i] == Num(left + i - |a + b|)
    {
      assert r[i] == c[i - |a + b|];
    }
  }

  /** When every page fits the budget, the bar is exactly pages 1..total and no 'dots'. */
  lemma PageItemsShort(current: int, total: int, siblingCount: nat)
    requires total <= Budget(siblingCount)
    ensures var r := PageItems(current, total, siblingCount);
            && |r| == Max(total, 0)
            && (forall i :: 0 <= i < |r| ==> r[i] == Num(i + 1))
            && Dots !in r
  {
  }

  /** The bar opens with page 1 and closes with the last page. */
  lemma PageItemsEndpoints(current: int, total: int, siblingCount: nat)
    requires total >= 1
    ensures var r := PageItems(current, total, siblingCount);
            |r| >= 1 && r[0] == Num(1) && r[|r| - 1] == Num(total)
  {
    if total > Budget(siblingCount) {
      LongLayout(current, total, siblingCount);
    }
  }

  /** Numbers rise strictly, every one is a page between 1 and the last page, whatever `current` is. */
  lemma PageItemsOrdered(current: int, total: int, siblingCount: nat)
    ensures NumbersIncreasing(PageItems(current, total, siblingCount))
    ensures NumbersWithin(PageItems(current, total, siblingCount), 1, total)
  {
    if total > Budget(siblingCount) {
      LongLayout(current, total, siblingCount);
    }
  }

  /** The bar never holds more than `siblingCount * 2 + 5` entries, however many pages there are. */
  lemma PageItemsLength(current: int, total: int, siblingCount: nat)
    ensures |PageItems(current, total, siblingCount)| <= Budget(siblingCount)
  {
    if total > Budget(siblingCount) {
      LongLayout(current, total, siblingCount);
    }
  }

  /**
   * 'dots' appear only second or next-to-last, at most one on each side of
   * the window, and each marks a real gap between its two neighbouring numbers.
   */
  lemma PageItemsGaps(current: int, total: int, siblingCount: nat)
    ensures var r := PageItems(current, total, siblingCount);
            && GapsMarked(r)
            && (forall i :: 0 <= i < |r| && r[i].Dots? ==> i == 1 || i == |r| - 2)
  {
    if total > Budget(siblingCount) {
      LongLayout(current, total, siblingCount);
    }
  }

  /** A current page between 1 and the last page is always shown. */
  lemma PageItemsShowCurrent(current: int, total: int, siblingCount: nat)
    requires 1 <= current <= total
    ensures Num(current) in PageItems(current, total, siblingCount)
  {
    var r := PageItems(current, total, siblingCount);
    if total > Budget(siblingCount) {
      LongLayout(current, total, siblingCount);
      var left := LeftSibling(current, siblingCount);
      var ld := if left > 2 then 1 else 0;
      if current == 1 {
        assert r[0] == Num(current);
      } else if current == total {
        assert r[|r| - 1] == Num(current);
      } else {
        assert r[1 + ld + current - left] == Num(current);
      }
    } else {
      assert r[current - 1] == Num(current);
    }
  }

  /** For a current page of at least 1, it is shown exactly when it does not pass the last page. */
  lemma PageItemsCurrentShownIff(current: int, total: int, siblingCount: nat)
    requires current >= 1
    ensures Num(current) in PageItems(current, total, siblingCount) <==> current <= total
  {
    var r := PageItems(current, total, siblingCount);
    if current <= total {
      PageItemsShowCurrent(current, total, siblingCount);
    } else {
      PageItemsOrdered(current, total, siblingCount);
      forall k | 0 <= k < |r| ensures r[k] != Num(current) {
        assert r[k].Num? ==> r[k].n <= total;
      }
    }
  }

  /** A current page past the last one is not shown: the bar reduces to its two ends. */
  lemma PageItemsBeyondLast(current: int, total: int, siblingCount: nat)
    requires total > Budget(siblingCount) && current >= total + siblingCount
    ensures PageItems(current, total, siblingCount) == [Num(1), Dots, Num(total)]
  {
    assert Run(LeftSibling(current, siblingCount), RightSibling(current, total, siblingCount) + 1) == [];
  }

  /** Two bars from the listing pages, with one sibling on each side. */
  lemma PageItemsExamples()
    ensures PageItems(10, 20, 1) == [Num(1), Dots, Num(9), Num(10), Num(11), Dots, Num(20)]
    ensures PageItems(99, 20, 1) == [Num(1), Dots, Num(20)]
    ensures PageItems(3, 7, 1) == [Num(1), Num(2), Num(3), Num(4), Num(5), Num(6), Num(7)]
  {
    assert Run(9, 12) == [Num(9), Num(10), Num(11)];
    PageItemsBeyondLast(99, 20, 1);
    assert Run(1, 8) == [Num(1), Num(2), Num(3), Num(4), Num(5), Num(6), Num(7)];
  }
}
