/**
 * The page strip of the catalog (`Pagination`): the first and last page,
 * the current page and its neighbours as page buttons, and one ellipsis for
 * every run of pages left out between them.
 */
module Pagination {

  /** An entry of the strip: a page number, counted from zero, or `'...'`. */
  datatype Mark = PageNo(n: int) | Gap

  /** `i === 0 || i === totalPages - 1 || Math.abs(i - page) <= 1`. */
  predicate Shown(i: int, page: int, totalPages: int)
  {
    i == 0 || i == totalPages - 1 || (i - page <= 1 && page - i <= 1)
  }

  /** One turn of the loop for page `i`: its button, or an ellipsis unless one is already last. */
  function Step(m: seq<Mark>, i: int, page: int, totalPages: int): seq<Mark>
  {
    if Shown(i, page, totalPages) then m + [PageNo(i)]
    else if m != [] && m[|m| - 1] == Gap then m
    else m + [Gap]
  }

  /** Page numbers rise along the strip. */
  ghost predicate Increasing(m: seq<Mark>)
  {
    forall a, b :: 0 <= a < b < |m| && m[a].PageNo? && m[b].PageNo? ==> m[a].n < m[b].n
  }

  ghost predicate Below(m: seq<Mark>, i: int)
  {
    forall k :: 0 <= k < |m| && m[k].PageNo? ==> 0 <= m[k].n < i
  }

  /** Exactly the pages to show among `0` to `i - 1` have a button. */
  ghost predicate Complete(m: seq<Mark>, page: int, totalPages: int, i: int)
  {
    forall j :: 0 <= j < i ==> (Shown(j, page, totalPages) <==> PageNo(j) in m)
  }

  /** Every ellipsis follows a button, and when another entry follows, it is a button past a skipped page. */
  ghost predicate GapsBetween(m: seq<Mark>)
  {
    forall k :: 0 <= k < |m| && m[k].Gap? ==>
      0 < k && m[k - 1].PageNo? && (k + 1 < |m| ==> m[k + 1].PageNo? && m[k - 1].n + 1 < m[k + 1].n)
  }

  /** Two buttons side by side are for consecutive pages. */
  ghost predicate Adjacent(m: seq<Mark>)
  {
    forall k :: 0 <= k && k + 1 < |m| && m[k].PageNo? && m[k + 1].PageNo? ==> m[k + 1].n == m[k].n + 1
  }

  /** What the loop needs to know about the last entry after page `i - 1`. */
  ghost predicate Last(m: seq<Mark>, page: int, totalPages: int, i: int)
  {
    i > 0 ==>
      |m| > 0 && m[0] == PageNo(0)
      && (m[|m| - 1].PageNo? ==> m[|m| - 1].n == i - 1)
      && (Shown(i - 1, page, totalPages) ==> m[|m| - 1] == PageNo(i - 1))
      && (m[|m| - 1].Gap? ==> |m| >= 2 && m[|m| - 2].PageNo? && m[|m| - 2].n + 1 < i)
  }

  ghost predicate Inv(m: seq<Mark>, page: int, totalPages: int, i: int)
  {
    Increasing(m) && Below(m, i) && GapsBetween(m) && Adjacent(m) && Last(m, page, totalPages, i)
  }

  lemma StepOrder(m: seq<Mark>, page: int, totalPages: int, i: nat)
    requires Inv(m, page, totalPages, i)
    ensures Increasing(Step(m, i, page, totalPages)) && Below(Step(m, i, page, totalPages), i + 1)
  {
  }

  lemma StepGaps(m: seq<Mark>, page: int, totalPages: int, i: nat)
    requires Inv(m, page, totalPages, i)
    ensures GapsBetween(Step(m, i, page, totalPages))
  {
    var r := Step(m, i, page, totalPages);
    forall k | 0 <= k < |r| && r[k].Gap?
      ensures 0 < k && r[k - 1].PageNo? && (k + 1 < |r| ==> r[k + 1].PageNo? && r[k - 1].n + 1 < r[k + 1].n)
    {
      if k < |m| {
        assert r[k] == m[k] && r[k - 1] == m[k - 1];
        if k + 1 == |m| && k + 1 < |r| {
          assert r[k + 1] == PageNo(i);
        }
      }
    }
  }

  lemma StepAdjacent(m: seq<Mark>, page: int, totalPages: int, i: nat)
    requires Inv(m, page, totalPages, i)
    ensures Adjacent(Step(m, i, page, totalPages))
  {
  }

  lemma StepLast(m: seq<Mark>, page: int, totalPages: int, i: nat)
    requires Inv(m, page, totalPages, i)
    ensures Last(Step(m, i, page, totalPages), page, totalPages, i + 1)
  {
  }

  lemma StepComplete(m: seq<Mark>, page: int, totalPages: int, i: nat)
    requires Inv(m, page, totalPages, i) && Complete(m, page, totalPages, i)
    ensures Complete(Step(m, i, page, totalPages), page, totalPages, i + 1)
  {
    var r := Step(m, i, page, totalPages);
    assert PageNo(i) !in m;
    forall j | 0 <= j < i + 1 ensures Shown(j, page, totalPages) <==> PageNo(j) in r {
      assert PageNo(j) in r <==> PageNo(j) in m || (j == i && Shown(i, page, totalPages));
    }
  }

  /** One turn of the loop keeps the invariant. */
  lemma StepInv(m: seq<Mark>, page: int, totalPages: int, i: nat)
    requires Inv(m, page, totalPages, i) && Complete(m, page, totalPages, i)
    ensures Inv(Step(m, i, page, totalPages), page, totalPages, i + 1)
    ensures Complete(Step(m, i, page, totalPages), page, totalPages, i + 1)
  {
    StepOrder(m, page, totalPages, i);
    StepGaps(m, page, totalPages, i);
    StepAdjacent(m, page, totalPages, i);
    StepLast(m, page, totalPages, i);
    StepComplete(m, page, totalPages, i);
  }

  /**
   * The loop that builds the strip. Nothing is built for at most one page.
   * Otherwise the strip runs from the first page to the last in rising order;
   * it has a button for exactly the first, the last, the current page and its
   * neighbours; neighbouring buttons are for consecutive pages, and each run
   * of skipped pages is one ellipsis between two buttons.
   */
  method PageStrip(page: int, totalPages: int) returns (pages: seq<Mark>)
    ensures totalPages <= 1 ==> pages == []
    ensures totalPages > 1 ==>
      |pages| > 0 && pages[0] == PageNo(0) && pages[|pages| - 1] == PageNo(totalPages - 1)
      && Increasing(pages) && Below(pages, totalPages) && Adjacent(pages) && GapsBetween(pages)
      && forall j :: 0 <= j < totalPages ==> (Shown(j, page, totalPages) <==> PageNo(j) in pages)
  {
    pages := [];
    if totalPages <= 1 {
      return;
    }
    for i := 0 to totalPages
      invariant Inv(pages, page, totalPages, i) && Complete(pages, page, totalPages, i)
    {
      StepInv(pages, page, totalPages, i);
      ghost var before := pages;
      if i == 0 || i == totalPages - 1 || (i - page <= 1 && page - i <= 1) {
        pages := pages + [PageNo(i)];
      } else if pages == [] || pages[|pages| - 1] != Gap {
        pages := pages + [Gap];
      }
      assert pages == Step(before, i, page, totalPages);
    }
  }

  /** Two ellipses are never side by side. */
  lemma NoAdjacentGaps(m: seq<Mark>)
    requires GapsBetween(m)
    ensures forall k :: 0 <= k && k + 1 < |m| ==> !(m[k].Gap? && m[k + 1].Gap?)
  {
  }

  /** The previous button is disabled on the first page, the next button from the last page on. */
  predicate PrevDisabled(page: int) { page == 0 }

  predicate NextDisabled(page: int, totalPages: int) { page >= totalPages - 1 }

  /** From a page in range, an enabled button leads to a page in range. */
  lemma ButtonsStayInRange(page: int, totalPages: int)
    requires 0 <= page < totalPages
    ensures !PrevDisabled(page) ==> 0 <= page - 1 < totalPages
    ensures !NextDisabled(page, totalPages) ==> 0 <= page + 1 < totalPages
  {
  }
}
