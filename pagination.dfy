/**
 * The offset/limit windowing of the task list handler (routes/api.js):
 * `skip((page - 1) * limit).limit(limit)` on the sorted matches and
 * `pages: Math.ceil(total / limit)`.
 */
module Pagination {

  /** How many matches the page skips. */
  function Skip(page: nat, limit: nat): (skip: nat)
    requires page >= 1
    ensures skip == (page - 1) * limit
    ensures page == 1 ==> skip == 0
  {
    (page - 1) * limit
  }

  /** `a <= b` survives multiplication by a non-negative factor. */
  lemma MulMonotone(a: int, b: int, k: nat)
    requires a <= b
    ensures a * k <= b * k
  {
    assert b * k - a * k == (b - a) * k;
  }

  /** `Math.ceil(total / limit)`: the fewest pages of `limit` items that hold `total` items. */
  function PageCount(total: nat, limit: nat): (pages: nat)
    requires limit >= 1
    ensures pages * limit >= total
    ensures pages > 0 ==> (pages - 1) * limit < total
    ensures pages == 0 <==> total == 0
  {
    var pages := (total + limit - 1) / limit;
    assert pages * limit <= total + limit - 1 < (pages + 1) * limit;
    assert (pages + 1) * limit == pages * limit + limit;
    assert pages > 0 ==> (pages - 1) * limit == pages * limit - limit;
    pages
  }

  /** The window `[skip, skip + limit)` of `s`, cut short at the end of `s`. */
  function PageOf<T>(s: seq<T>, skip: nat, limit: nat): (r: seq<T>)
    ensures |r| <= limit
    ensures skip >= |s| ==> r == []
    ensures skip < |s| ==> |r| == if skip + limit <= |s| then limit else |s| - skip
    ensures forall k :: 0 <= k < |r| ==> skip + k < |s| && r[k] == s[skip + k]
  {
    if skip >= |s| then []
    else if skip + limit <= |s| then s[skip..skip + limit]
    else s[skip..]
  }

  /** Every item on a page comes from the sequence being paged. */
  lemma PageMembers<T>(s: seq<T>, skip: nat, limit: nat)
    ensures forall x :: x in PageOf(s, skip, limit) ==> x in s
  {
    var r := PageOf(s, skip, limit);
    forall x | x in r ensures x in s {
      var k :| 0 <= k < |r| && r[k] == x;
      assert s[skip + k] == x;
    }
  }

  /** A page holds something exactly when its number is at most the page count. */
  lemma {:induction false} PageNonEmptyIff<T>(s: seq<T>, page: nat, limit: nat)
    requires page >= 1 && limit >= 1
    ensures PageOf(s, Skip(page, limit), limit) != [] <==> page <= PageCount(|s|, limit)
  {
    var pages := PageCount(|s|, limit);
    if page <= pages {
      MulMonotone(page - 1, pages - 1, limit);
    } else {
      MulMonotone(pages, page - 1, limit);
    }
  }

  /** Pages 1 to n, one after another. */
  function FirstPages<T>(s: seq<T>, limit: nat, n: nat): (r: seq<T>)
    requires limit >= 1
  {
    if n == 0 then [] else FirstPages(s, limit, n - 1) + PageOf(s, Skip(n, limit), limit)
  }

  /** Pages 1 to n are the first n * limit items. */
  lemma {:induction false} FirstPagesArePrefix<T>(s: seq<T>, limit: nat, n: nat)
    requires limit >= 1
    ensures FirstPages(s, limit, n) == s[..if n * limit <= |s| then n * limit else |s|]
  {
    if n > 0 {
      FirstPagesArePrefix(s, limit, n - 1);
      var a := (n - 1) * limit;
      assert n * limit == a + limit;
      if a < |s| {
        var b := if a + limit <= |s| then a + limit else |s|;
        assert s[..a] + s[a..b] == s[..b];
      }
    }
  }

  /** Reading every page in order gives back the whole sorted result, each item once. */
  lemma PagesCoverAll<T>(s: seq<T>, limit: nat)
    requires limit >= 1
    ensures FirstPages(s, limit, PageCount(|s|, limit)) == s
  {
    FirstPagesArePrefix(s, limit, PageCount(|s|, limit));
  }

  /** 25 matches, 10 per page: page 3 skips 20 and holds the last 5 of 3 pages. */
  lemma PaginationExample<T>(s: seq<T>)
    requires |s| == 25
    ensures Skip(3, 10) == 20 && PageCount(|s|, 10) == 3
    ensures PageOf(s, Skip(3, 10), 10) == s[20..]
  {
  }
}
