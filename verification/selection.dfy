/** The page-selection rule of selpg's input loops.

    Both input loops read lines one at a time with a counter `count` that
    starts at 0 and grows by one per line read, and keep a line when its page
    index `count / pageLen` lies in [startPage, endPage]. Here the input is the
    sequence of lines already read, and `Select` is what the loop has kept
    after reading all of them. */
module Selection {

  /** True when the line at zero-based position `count` lies on a kept page.
      The counter is never negative and `pageLen` is positive, so Go's
      truncating division and Dafny's Euclidean division agree here. Page
      indices start at 0, so no line is kept from an inverted range or from
      one that ends before page 0, and the first pageLen lines are page 0.
      PageBounds gives the exact test on the position. */
  predicate OnSelectedPage(count: nat, startPage: int, endPage: int, pageLen: int): (selected: bool)
    requires pageLen > 0
    ensures selected ==> 0 <= endPage && startPage <= endPage
    ensures count < pageLen ==> (selected <==> startPage <= 0 <= endPage)
  {
    count / pageLen >= startPage && count / pageLen <= endPage
  }

  /** The lines kept after reading `lines`, in reading order. Defined on the
      last line read, as the loop extends its output one line at a time. */
  function Select(lines: seq<string>, startPage: int, endPage: int, pageLen: int): (kept: seq<string>)
    requires pageLen > 0
    ensures |kept| <= |lines|
    decreases |lines|
  {
    if |lines| == 0 then []
    else
      var count := |lines| - 1;
      Select(lines[..count], startPage, endPage, pageLen)
        + (if OnSelectedPage(count, startPage, endPage, pageLen) then [lines[count]] else [])
  }

  /** Reading the line at position `count` extends the kept lines by that
      line exactly when it is on a kept page. */
  lemma SelectExtend(lines: seq<string>, count: nat, startPage: int, endPage: int, pageLen: int)
    requires pageLen > 0 && count < |lines|
    ensures Select(lines[..count + 1], startPage, endPage, pageLen)
         == Select(lines[..count], startPage, endPage, pageLen)
            + (if OnSelectedPage(count, startPage, endPage, pageLen) then [lines[count]] else [])
  {
    assert lines[..count + 1][..count] == lines[..count];
  }

  /** `first` cut to [0, n]. */
  function ClampStart(n: nat, first: int): (lo: nat)
    ensures lo <= n
  {
    if first < 0 then 0 else if first > n then n else first
  }

  /** `past` cut to [ClampStart(n, first), n]. */
  function ClampEnd(n: nat, first: int, past: int): (hi: nat)
    ensures ClampStart(n, first) <= hi <= n
  {
    var lo := ClampStart(n, first);
    if past < lo then lo else if past > n then n else past
  }

  /** First position of the kept window among `n` lines: the first line of
      page `startPage`, cut to [0, n]. */
  function WindowStart(n: nat, startPage: int, pageLen: int): (lo: nat)
    requires pageLen > 0
    ensures lo <= n
  {
    ClampStart(n, startPage * pageLen)
  }

  /** One past the last position of the kept window among `n` lines: the
      first line after page `endPage`, cut to [WindowStart, n]. */
  function WindowEnd(n: nat, startPage: int, endPage: int, pageLen: int): (hi: nat)
    requires pageLen > 0
    ensures WindowStart(n, startPage, pageLen) <= hi <= n
  {
    ClampEnd(n, startPage * pageLen, (endPage + 1) * pageLen)
  }

  /** How the clamped window changes when one more line is read. */
  lemma ClampStep(n: nat, first: int, past: int)
    ensures first <= n < past ==>
      ClampStart(n + 1, first) == ClampStart(n, first) && ClampEnd(n, first, past) == n
      && ClampEnd(n + 1, first, past) == n + 1
    ensures n < first ==>
      ClampStart(n, first) == ClampEnd(n, first, past) == n
      && ClampStart(n + 1, first) == ClampEnd(n + 1, first, past) == n + 1
    ensures first <= n && past <= n ==>
      ClampStart(n + 1, first) == ClampStart(n, first) && ClampEnd(n + 1, first, past) == ClampEnd(n, first, past)
  {
  }

  /** The clamped window is no wider than [first, past) and is empty when
      it starts at or past the end. */
  lemma ClampWidth(n: nat, first: int, past: int)
    ensures ClampEnd(n, first, past) - ClampStart(n, first) <= if past < first then 0 else past - first
    ensures first >= n ==> ClampEnd(n, first, past) == ClampStart(n, first)
  {
  }

  lemma MulMonotone(x: int, y: int, p: int)
    requires x <= y && p > 0
    ensures x * p <= y * p
  {
    assert y * p - x * p == (y - x) * p;
  }

  /** The page test as a test on the line position: a line is on a page in
      [startPage, endPage] exactly when it lies between the first line of
      page startPage and the first line after page endPage. */
  lemma PageBounds(count: nat, startPage: int, endPage: int, pageLen: int)
    requires pageLen > 0
    ensures OnSelectedPage(count, startPage, endPage, pageLen)
        <==> startPage * pageLen <= count < (endPage + 1) * pageLen
  {
    QuotientBounds(count, count / pageLen, startPage, endPage, pageLen);
  }

  lemma QuotientBounds(count: nat, q: int, startPage: int, endPage: int, pageLen: int)
    requires pageLen > 0 && q == count / pageLen
    ensures startPage <= q <= endPage <==> startPage * pageLen <= count < (endPage + 1) * pageLen
  {
    var r := count % pageLen;
    assert count == q * pageLen + r && 0 <= r < pageLen;
    if q >= startPage {
      MulMonotone(startPage, q, pageLen);
    } else {
      MulMonotone(q + 1, startPage, pageLen);
    }
    if q <= endPage {
      MulMonotone(q + 1, endPage + 1, pageLen);
    } else {
      MulMonotone(endPage + 1, q, pageLen);
    }
  }

  /** A position is inside the window exactly when its line is on a kept page. */
  lemma WindowIsSelectedPages(n: nat, startPage: int, endPage: int, pageLen: int)
    requires pageLen > 0
    ensures forall i: nat :: i < n ==>
      (OnSelectedPage(i, startPage, endPage, pageLen) <==>
       WindowStart(n, startPage, pageLen) <= i < WindowEnd(n, startPage, endPage, pageLen))
  {
    forall i: nat | i < n
      ensures OnSelectedPage(i, startPage, endPage, pageLen)
        <==> WindowStart(n, startPage, pageLen) <= i < WindowEnd(n, startPage, endPage, pageLen)
    {
      PageBounds(i, startPage, endPage, pageLen);
    }
  }

  /** The lines at positions in [first, past), in order: the same loop as
      `Select` with the page test replaced by a test on the position. */
  function KeepPositions(lines: seq<string>, first: int, past: int): (kept: seq<string>)
    decreases |lines|
  {
    if |lines| == 0 then []
    else
      var n := |lines| - 1;
      KeepPositions(lines[..n], first, past) + (if first <= n < past then [lines[n]] else [])
  }

  lemma {:induction false} KeepPositionsIsSlice(lines: seq<string>, first: int, past: int)
    ensures KeepPositions(lines, first, past)
         == lines[ClampStart(|lines|, first)..ClampEnd(|lines|, first, past)]
  {
    if |lines| > 0 {
      var n := |lines| - 1;
      var read := lines[..n];
      KeepPositionsIsSlice(read, first, past);
      ClampStep(n, first, past);
      var lo, hi := ClampStart(n, first), ClampEnd(n, first, past);
      var lo', hi' := ClampStart(n + 1, first), ClampEnd(n + 1, first, past);
      if first <= n < past {
        assert lines[lo'..hi'] == read[lo..hi] + [lines[n]];
      } else if first <= n {
        assert lines[lo'..hi'] == read[lo..hi];
      }
    }
  }

  lemma {:induction false} SelectIsKeepPositions(lines: seq<string>, startPage: int, endPage: int, pageLen: int)
    requires pageLen > 0
    ensures Select(lines, startPage, endPage, pageLen)
         == KeepPositions(lines, startPage * pageLen, (endPage + 1) * pageLen)
  {
    if |lines| > 0 {
      var n := |lines| - 1;
      SelectIsKeepPositions(lines[..n], startPage, endPage, pageLen);
      PageBounds(n, startPage, endPage, pageLen);
    }
  }

  /** The kept lines are one contiguous slice of the input: from the first
      line of page startPage to the last line of page endPage, cut to the
      input's length. */
  lemma SelectIsWindow(lines: seq<string>, startPage: int, endPage: int, pageLen: int)
    requires pageLen > 0
    ensures Select(lines, startPage, endPage, pageLen)
         == lines[WindowStart(|lines|, startPage, pageLen)..WindowEnd(|lines|, startPage, endPage, pageLen)]
  {
    SelectIsKeepPositions(lines, startPage, endPage, pageLen);
    KeepPositionsIsSlice(lines, startPage * pageLen, (endPage + 1) * pageLen);
  }

  /** Exact membership, order and multiplicity: output position k holds the
      input line at position WindowStart + k, which is on a kept page, and
      every input line on a kept page appears at exactly that one position. */
  lemma SelectKeepsExactlySelectedLines(lines: seq<string>, startPage: int, endPage: int, pageLen: int)
    requires pageLen > 0
    ensures var kept := Select(lines, startPage, endPage, pageLen);
            var lo := WindowStart(|lines|, startPage, pageLen);
            && (forall k :: 0 <= k < |kept| ==>
                  lo + k < |lines| && kept[k] == lines[lo + k]
                  && OnSelectedPage(lo + k, startPage, endPage, pageLen))
            && (forall i: nat :: i < |lines| && OnSelectedPage(i, startPage, endPage, pageLen) ==>
                  lo <= i < lo + |kept| && kept[i - lo] == lines[i])
  {
    SelectIsWindow(lines, startPage, endPage, pageLen);
    WindowIsSelectedPages(|lines|, startPage, endPage, pageLen);
  }

  /** The set of positions whose line is on a kept page. */
  ghost function SelectedPositions(n: nat, startPage: int, endPage: int, pageLen: int): set<nat>
    requires pageLen > 0
  {
    set i: nat | i < n && OnSelectedPage(i, startPage, endPage, pageLen)
  }

  ghost predicate Between(lo: nat, i: nat, hi: nat) {
    lo <= i < hi
  }

  lemma {:induction false} RangeCardinality(lo: nat, hi: nat)
    requires lo <= hi
    ensures |set i: nat | i < hi && Between(lo, i, hi)| == hi - lo
    decreases hi - lo
  {
    if lo < hi {
      var next := lo + 1;
      RangeCardinality(next, hi);
      assert (set i: nat | i < hi && Between(lo, i, hi)) == {lo} + (set i: nat | i < hi && Between(next, i, hi));
    } else {
      assert (set i: nat | i < hi && Between(lo, i, hi)) == {};
    }
  }

  /** The number of kept lines equals the number of input positions whose
      page index lies in [startPage, endPage]. */
  lemma SelectCountsSelectedPositions(lines: seq<string>, startPage: int, endPage: int, pageLen: int)
    requires pageLen > 0
    ensures |Select(lines, startPage, endPage, pageLen)| == |SelectedPositions(|lines|, startPage, endPage, pageLen)|
  {
    var lo, hi := WindowStart(|lines|, startPage, pageLen), WindowEnd(|lines|, startPage, endPage, pageLen);
    SelectIsWindow(lines, startPage, endPage, pageLen);
    WindowIsSelectedPages(|lines|, startPage, endPage, pageLen);
    assert SelectedPositions(|lines|, startPage, endPage, pageLen) == set i: nat | i < hi && Between(lo, i, hi);
    RangeCardinality(lo, hi);
  }

  /** Size bounds: at most (endPage - startPage + 1) pages of pageLen lines;
      at most one page when startPage == endPage; nothing when the range is
      inverted or starts at or past the end of the input. */
  lemma SelectSizeBounds(lines: seq<string>, startPage: int, endPage: int, pageLen: int)
    requires pageLen > 0
    ensures var kept := Select(lines, startPage, endPage, pageLen);
            && (startPage <= endPage ==> |kept| <= (endPage - startPage + 1) * pageLen)
            && (startPage == endPage ==> |kept| <= pageLen)
            && (startPage > endPage ==> kept == [])
            && (startPage * pageLen >= |lines| ==> kept == [])
  {
    SelectIsKeepPositions(lines, startPage, endPage, pageLen);
    KeepPositionsWidth(lines, startPage * pageLen, (endPage + 1) * pageLen);
    PagesSpan(startPage, endPage, pageLen);
  }

  /** The lines at positions in [first, past) number at most past - first,
      and none when the window is empty or starts at or past the end. */
  lemma KeepPositionsWidth(lines: seq<string>, first: int, past: int)
    ensures var kept := KeepPositions(lines, first, past);
            && (first <= past ==> |kept| <= past - first)
            && (past <= first || first >= |lines| ==> kept == [])
  {
    KeepPositionsIsSlice(lines, first, past);
    ClampWidth(|lines|, first, past);
  }

  /** Lines from the first line of page startPage up to the first line after
      page endPage: (endPage - startPage + 1) pages, none when inverted. */
  lemma PagesSpan(startPage: int, endPage: int, pageLen: int)
    requires pageLen > 0
    ensures (endPage + 1) * pageLen - startPage * pageLen == (endPage - startPage + 1) * pageLen
    ensures startPage > endPage ==> (endPage + 1) * pageLen <= startPage * pageLen
    ensures startPage == endPage ==> (endPage + 1) * pageLen - startPage * pageLen == pageLen
  {
    if startPage > endPage {
      MulMonotone(endPage + 1, startPage, pageLen);
    }
  }

  /** Selecting from page 0 (or below) through a page that reaches the end of
      the input returns the whole input unchanged. */
  lemma SelectWholeInput(lines: seq<string>, startPage: int, endPage: int, pageLen: int)
    requires pageLen > 0
    requires startPage <= 0 && |lines| <= (endPage + 1) * pageLen
    ensures Select(lines, startPage, endPage, pageLen) == lines
  {
    SelectIsWindow(lines, startPage, endPage, pageLen);
    MulMonotone(startPage, 0, pageLen);
  }

  /** startPage 0 with endPage at least the page of the last line keeps
      every line. */
  lemma SelectFromFirstToLastPage(lines: seq<string>, endPage: int, pageLen: int)
    requires pageLen > 0 && |lines| > 0
    requires endPage >= (|lines| - 1) / pageLen
    ensures Select(lines, 0, endPage, pageLen) == lines
  {
    var last := |lines| - 1;
    assert last == (last / pageLen) * pageLen + last % pageLen;
    MulMonotone(last / pageLen + 1, endPage + 1, pageLen);
    SelectWholeInput(lines, 0, endPage, pageLen);
  }

  /** 150 lines, 72 lines per page, page 1 only: zero-based lines 72..143. */
  lemma SelectSecondPageOf150(lines: seq<string>)
    requires |lines| == 150
    ensures Select(lines, 1, 1, 72) == lines[72..144]
    ensures |Select(lines, 1, 1, 72)| == 72
  {
    SelectIsWindow(lines, 1, 1, 72);
  }
}
