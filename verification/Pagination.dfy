/** Page numbers, limits and next links over a fixed result, in one order or in any order of its ties. */
module Pagination {
  import opened Prelude

  /** A validated page: page >= 1 and 1 <= page_size <= 100. */
  datatype Page = Page(page: int, pageSize: int)

  predicate Valid(p: Page) {
    p.page >= 1 && 1 <= p.pageSize <= 100
  }

  /** get_limit_skip */
  function LimitSkip(p: Page): (int, int) {
    (p.pageSize, (p.page - 1) * p.pageSize)
  }

  /** math.ceil(total / page_size) */
  function TotalPages(total: nat, pageSize: int): int
    requires pageSize >= 1
  {
    (total + pageSize - 1) / pageSize
  }

  /** ... ORDER BY ... LIMIT limit OFFSET offset */
  function LimitOffset<T>(rows: seq<T>, limit: int, offset: int): seq<T>
    requires limit >= 0 && offset >= 0
  {
    if offset >= |rows| then []
    else if offset + limit <= |rows| then rows[offset..offset + limit]
    else rows[offset..]
  }

  datatype Output<T> = Output(count: nat, totalPages: int, next: Option<int>, previous: Option<int>, results: seq<T>)

  /** apply_pagination, and get_items with its separate zero case, of which this is the same number. */
  function Paginate<T>(rows: seq<T>, p: Page): Output<T>
    requires Valid(p)
  {
    OffsetNonNegative(p);
    var (limit, offset) := LimitSkip(p);
    var totalPages := TotalPages(|rows|, p.pageSize);
    Output(|rows|, totalPages,
           if p.page < totalPages then Some(p.page + 1) else None,
           if p.page > 1 then Some(p.page - 1) else None,
           LimitOffset(rows, limit, offset))
  }

  lemma OffsetNonNegative(p: Page)
    requires Valid(p)
    ensures LimitSkip(p).1 >= 0
  {
  }

  /** There is a next page exactly when rows remain behind this one. */
  lemma NextIffRowsRemain(total: nat, p: Page)
    requires Valid(p)
    ensures var (limit, offset) := LimitSkip(p);
            p.page < TotalPages(total, p.pageSize) <==> offset + limit < total
  {
    var n := p.pageSize;
    var q := TotalPages(total, n);
    CeilBounds(total, n);
    assert LimitSkip(p).1 + n == p.page * n by { Factor(p.page, n); }
    if p.page < q {
      Scale(p.page, q - 1, n);
      Factor(q, n);
    } else {
      Scale(q, p.page, n);
    }
  }

  lemma Factor(a: int, n: int)
    ensures (a - 1) * n + n == a * n
  {
  }

  lemma Scale(a: int, b: int, n: int)
    requires a <= b && n >= 1
    ensures a * n <= b * n
  {
  }

  lemma CeilBounds(total: nat, n: int)
    requires n >= 1
    ensures var q := TotalPages(total, n);
            q >= 0 && total <= q * n && (q >= 1 ==> (q - 1) * n < total)
  {
    var q := TotalPages(total, n);
    DivMod(total + n - 1, n);
    assert q * n == (total + n - 1) - (total + n - 1) % n;
    Factor(q, n);
  }

  lemma DivMod(x: nat, n: int)
    requires n >= 1
    ensures (x / n) * n == x - x % n && 0 <= x % n < n && x / n >= 0
  {
  }

  /** Following next links from a page on: the pages a reader sees. */
  function Follow<T>(rows: seq<T>, p: Page): seq<seq<T>>
    requires Valid(p)
    decreases TotalPages(|rows|, p.pageSize) - p.page
  {
    var out := Paginate(rows, p);
    match out.next
    case None => [out.results]
    case Some(next) => [out.results] + Follow(rows, p.(page := next))
  }

  function Flatten<T>(pages: seq<seq<T>>): seq<T> {
    if pages == [] then [] else pages[0] + Flatten(pages[1..])
  }

  /** One page: its rows, and whether it links on. */
  lemma PageShape<T>(rows: seq<T>, p: Page)
    requires Valid(p) && LimitSkip(p).1 <= |rows|
    ensures var offset, end := LimitSkip(p).1, LimitSkip(p.(page := p.page + 1)).1;
            && 0 <= offset < end
            && (p.page < TotalPages(|rows|, p.pageSize) <==> end < |rows|)
            && Paginate(rows, p).results == rows[offset..if end < |rows| then end else |rows|]
            && Paginate(rows, p).next == if end < |rows| then Some(p.page + 1) else None
  {
    NextIffRowsRemain(|rows|, p);
    Factor(p.page, p.pageSize);
    OffsetNonNegative(p);
    hide TotalPages;
  }

  lemma {:induction false} FollowFacts<T>(rows: seq<T>, p: Page)
    requires Valid(p) && LimitSkip(p).1 <= |rows|
    ensures LimitSkip(p).1 >= 0 && Flatten(Follow(rows, p)) == rows[LimitSkip(p).1..]
    ensures |Follow(rows, p)| == if p.page < TotalPages(|rows|, p.pageSize)
                                 then TotalPages(|rows|, p.pageSize) - p.page + 1 else 1
    decreases TotalPages(|rows|, p.pageSize) - p.page
  {
    hide LimitSkip, TotalPages, Paginate, LimitOffset;
    PageShape(rows, p);
    var offset, end := LimitSkip(p).1, LimitSkip(p.(page := p.page + 1)).1;
    var out := Paginate(rows, p);
    if end < |rows| {
      FollowFacts(rows, p.(page := p.page + 1));
      assert Follow(rows, p)[1..] == Follow(rows, p.(page := p.page + 1));
      assert rows[offset..] == rows[offset..end] + rows[end..];
    } else {
      assert Follow(rows, p) == [out.results];
      assert Flatten([out.results]) == out.results + Flatten([out.results][1..]);
    }
  }

  /** From page 1 the links visit every row exactly once, in order, on ceil(total / page_size) pages (one if empty). */
  lemma FollowVisitsAll<T>(rows: seq<T>, pageSize: int)
    requires 1 <= pageSize <= 100
    ensures Flatten(Follow(rows, Page(1, pageSize))) == rows
    ensures |Follow(rows, Page(1, pageSize))| == if rows == [] then 1 else TotalPages(|rows|, pageSize)
    // Every page states these numbers.
    ensures forall n | n >= 1 :: var out := Paginate(rows, Page(n, pageSize));
              out.count == |rows| && |Follow(rows, Page(1, pageSize))| == if rows == [] then 1 else out.totalPages
  {
    FollowFacts(rows, Page(1, pageSize));
    CeilBounds(|rows|, pageSize);
  }

  // ---- Ties in the ordering ----------------------------------------------------

  /** ORDER BY created_at DESC: `key` alone decides, rows with equal keys come in any order. */
  predicate NewestFirst<T>(rows: seq<T>, key: T -> int) {
    forall i, j | 0 <= i < j < |rows| :: key(rows[i]) >= key(rows[j])
  }

  /** Each request gets the same rows in that order, but may see its own order of the ties. */
  ghost predicate Answers<T(!new)>(answer: int -> seq<T>, rows: seq<T>, key: T -> int) {
    forall n :: |answer(n)| == |rows| && multiset(answer(n)) == multiset(rows) && NewestFirst(answer(n), key)
  }

  /** Following next links, page n being computed from answer n. */
  ghost function FollowEach<T(!new)>(answer: int -> seq<T>, total: nat, p: Page): seq<seq<T>>
    requires Valid(p) && forall n :: |answer(n)| == total
    decreases TotalPages(total, p.pageSize) - p.page
  {
    var out := Paginate(answer(p.page), p);
    match out.next
    case None => [out.results]
    case Some(next) => [out.results] + FollowEach(answer, total, p.(page := next))
  }

  function Offset(page: int, pageSize: int): int {
    LimitSkip(Page(page, pageSize)).1
  }

  /** No two rows with equal keys stand on either side of the start of a page. */
  ghost predicate NoTieAcrossPages<T>(rows: seq<T>, key: T -> int, pageSize: int) {
    forall n | 0 < Offset(n, pageSize) < |rows| ::
      key(rows[Offset(n, pageSize) - 1]) != key(rows[Offset(n, pageSize)])
  }

  /** Where the keys fall below a value, the rows are cut in two. */
  lemma CutCounts<T>(rows: seq<T>, key: T -> int, cut: nat, k: int, x: T)
    requires cut <= |rows|
    requires forall i | 0 <= i < |rows| :: key(rows[i]) >= k <==> i < cut
    ensures multiset(rows[..cut])[x] == if key(x) >= k then multiset(rows)[x] else 0
  {
    assert rows == rows[..cut] + rows[cut..];
    assert key(x) >= k ==> x !in rows[cut..];
    assert key(x) < k ==> x !in rows[..cut];
  }

  lemma {:induction false} HasCut<T>(rows: seq<T>, key: T -> int, k: int) returns (cut: nat)
    requires NewestFirst(rows, key)
    ensures cut <= |rows| && forall i | 0 <= i < |rows| :: key(rows[i]) >= k <==> i < cut
  {
    if rows == [] || key(rows[|rows| - 1]) >= k {
      cut := |rows|;
    } else {
      cut := HasCut(rows[..|rows| - 1], key, k);
    }
  }

  /** Up to a position without a tie, two orders of the same rows hold the same rows. */
  lemma SamePrefix<T>(rows: seq<T>, other: seq<T>, key: T -> int, b: nat)
    requires NewestFirst(rows, key) && NewestFirst(other, key) && multiset(other) == multiset(rows)
    requires b <= |rows| && (0 < b < |rows| ==> key(rows[b - 1]) != key(rows[b]))
    ensures |other| == |rows| && multiset(other[..b]) == multiset(rows[..b])
  {
    assert |other| == |multiset(other)| == |multiset(rows)| == |rows|;
    if b == 0 {
    } else if b == |rows| {
      assert rows[..b] == rows && other[..b] == other;
    } else {
      var k := key(rows[b - 1]);
      var cut := HasCut(other, key, k);
      forall x ensures multiset(other[..cut])[x] == multiset(rows[..b])[x] {
        CutCounts(rows, key, b, k, x);
        CutCounts(other, key, cut, k, x);
      }
      assert multiset(other[..cut]) == multiset(rows[..b]);
      assert cut == |multiset(other[..cut])| == |multiset(rows[..b])| == b;
    }
  }

  lemma SameSlice<T>(rows: seq<T>, other: seq<T>, a: nat, b: nat)
    requires |other| == |rows| && a <= b <= |rows|
    requires multiset(other[..a]) == multiset(rows[..a]) && multiset(other[..b]) == multiset(rows[..b])
    ensures multiset(other[a..b]) == multiset(rows[a..b])
  {
    assert rows[..b] == rows[..a] + rows[a..b] && other[..b] == other[..a] + other[a..b];
    assert multiset(rows[..b]) == multiset(rows[..a]) + multiset(rows[a..b]);
    assert multiset(other[..b]) == multiset(other[..a]) + multiset(other[a..b]);
    forall x ensures multiset(other[a..b])[x] == multiset(rows[a..b])[x] {
      assert multiset(other[..b])[x] == multiset(other[..a])[x] + multiset(other[a..b])[x];
      assert multiset(rows[..b])[x] == multiset(rows[..a])[x] + multiset(rows[a..b])[x];
    }
  }

  /** Without such ties a page shows the same rows whatever order it sees, and links on as in any other. */
  lemma UntiedPage<T>(rows: seq<T>, other: seq<T>, key: T -> int, p: Page)
    requires Valid(p) && 0 <= Offset(p.page, p.pageSize) <= |rows|
    requires NewestFirst(rows, key) && NewestFirst(other, key) && NoTieAcrossPages(rows, key, p.pageSize)
    requires |other| == |rows| && multiset(other) == multiset(rows)
    ensures var a, e := Offset(p.page, p.pageSize), Offset(p.page + 1, p.pageSize);
            && 0 <= a < e && (p.page < TotalPages(|rows|, p.pageSize) <==> e < |rows|)
            && multiset(Paginate(other, p).results) == multiset(rows[a..if e < |rows| then e else |rows|])
            && Paginate(other, p).next == if e < |rows| then Some(p.page + 1) else None
  {
    hide LimitSkip, TotalPages, Paginate, LimitOffset, NewestFirst;
    PageShape(other, p);
    var a, e := Offset(p.page, p.pageSize), Offset(p.page + 1, p.pageSize);
    assert a == LimitSkip(p).1 && e == LimitSkip(p.(page := p.page + 1)).1;
    var b := if e < |rows| then e else |rows|;
    SamePrefix(rows, other, key, a);
    SamePrefix(rows, other, key, b);
    SameSlice(rows, other, a, b);
  }

  /** Without such ties the pages from p on hold exactly the rows from its offset on, whatever orders they see. */
  lemma {:induction false} UntiedVisitsAll<T(!new)>(answer: int -> seq<T>, rows: seq<T>, key: T -> int, p: Page)
    requires Valid(p) && 0 <= Offset(p.page, p.pageSize) <= |rows|
    requires NewestFirst(rows, key) && Answers(answer, rows, key) && NoTieAcrossPages(rows, key, p.pageSize)
    ensures multiset(Flatten(FollowEach(answer, |rows|, p))) == multiset(rows[Offset(p.page, p.pageSize)..])
    decreases TotalPages(|rows|, p.pageSize) - p.page
  {
    hide Offset, TotalPages, Paginate, NewestFirst, NoTieAcrossPages;
    var next := p.(page := p.page + 1);
    UntiedPage(rows, answer(p.page), key, p);
    var a, e := Offset(p.page, p.pageSize), Offset(next.page, p.pageSize);
    var pages, first := FollowEach(answer, |rows|, p), Paginate(answer(p.page), p).results;
    if e < |rows| {
      UntiedVisitsAll(answer, rows, key, next);
      FlattenCons(pages, first, FollowEach(answer, |rows|, next));
      assert rows[a..] == rows[a..e] + rows[e..];
    } else {
      FlattenCons(pages, first, []);
      assert rows[a..] == rows[a..|rows|];
    }
  }

  lemma FlattenCons<T>(pages: seq<seq<T>>, first: seq<T>, rest: seq<seq<T>>)
    requires pages == [first] + rest
    ensures Flatten(pages) == first + Flatten(rest)
  {
    assert pages[1..] == rest;
  }

  /** If every page shows what it would show of another sequence, following the links yields that sequence. */
  lemma {:induction false} FollowEachIsFollow<T(!new)>(answer: int -> seq<T>, rows: seq<T>, p: Page)
    requires Valid(p) && forall n :: |answer(n)| == |rows|
    requires forall n | n >= 1 :: Paginate(answer(n), Page(n, p.pageSize)) == Paginate(rows, Page(n, p.pageSize))
    ensures FollowEach(answer, |rows|, p) == Follow(rows, p)
    decreases TotalPages(|rows|, p.pageSize) - p.page
  {
    assert p == Page(p.page, p.pageSize);
    if Paginate(rows, p).next.Some? {
      FollowEachIsFollow(answer, rows, p.(page := p.page + 1));
    }
  }

  /** The two rows at a tied page start in the other order. */
  function Swapped<T>(rows: seq<T>, b: nat): seq<T>
    requires 0 < b < |rows|
  {
    rows[b - 1 := rows[b]][b := rows[b - 1]]
  }

  lemma SwapKeeps<T>(rows: seq<T>, key: T -> int, b: nat)
    requires NewestFirst(rows, key) && 0 < b < |rows| && key(rows[b - 1]) == key(rows[b])
    ensures |Swapped(rows, b)| == |rows|
    ensures multiset(Swapped(rows, b)) == multiset(rows) && NewestFirst(Swapped(rows, b), key)
  {
    forall i | 0 <= i < |rows| ensures key(Swapped(rows, b)[i]) == key(rows[i]) {
    }
  }

  /** Where a row once stood, another one in its place hides it. */
  lemma Hidden<T>(rows: seq<T>, b: nat)
    requires Distinct(rows) && 0 < b < |rows|
    ensures rows[b] !in rows[b := rows[b - 1]]
  {
  }

  /** Offsets of different pages are at least a page apart. */
  lemma OffsetsApart(n: int, m: int, pageSize: int)
    requires pageSize >= 1 && n < m
    ensures Offset(n, pageSize) + pageSize <= Offset(m, pageSize)
  {
    Scale(n, m - 1, pageSize);
    Factor(n, pageSize);
  }

  /** Page n is the only one to see the swap, and it does not show the first of the two rows' places. */
  lemma SwappedPage<T>(rows: seq<T>, n: int, m: int, pageSize: int)
    requires 1 <= pageSize <= 100 && m >= 1 && 0 < Offset(n, pageSize) < |rows|
    ensures var b := Offset(n, pageSize);
            Paginate(if m == n then Swapped(rows, b) else rows, Page(m, pageSize))
            == Paginate(rows[b := rows[b - 1]], Page(m, pageSize))
  {
    var b, a := Offset(n, pageSize), Offset(m, pageSize);
    OffsetNonNegative(Page(m, pageSize));
    if m < n { OffsetsApart(m, n, pageSize); } else if n < m { OffsetsApart(n, m, pageSize); }
    var shown := if m == n then Swapped(rows, b) else rows;
    var end := if a + pageSize <= |rows| then a + pageSize else |rows|;
    if a < |rows| {
      assert shown[a..end] == rows[b := rows[b - 1]][a..end];
    }
    hide TotalPages;
  }

  /** At a tied page start one order shows a row twice and another not at all. */
  lemma TiedMissesARow<T(!new)>(rows: seq<T>, key: T -> int, n: int, pageSize: int) returns (answer: int -> seq<T>)
    requires 1 <= pageSize <= 100 && Distinct(rows) && NewestFirst(rows, key)
    requires 0 < Offset(n, pageSize) < |rows|
    requires key(rows[Offset(n, pageSize) - 1]) == key(rows[Offset(n, pageSize)])
    ensures Answers(answer, rows, key)
    ensures Flatten(FollowEach(answer, |rows|, Page(1, pageSize)))
            == rows[Offset(n, pageSize) := rows[Offset(n, pageSize) - 1]]
    ensures rows[Offset(n, pageSize)] !in Flatten(FollowEach(answer, |rows|, Page(1, pageSize)))
  {
    var b := Offset(n, pageSize);
    hide Offset, NewestFirst, Distinct, Swapped, TotalPages, Paginate;
    var swapped, seen := Swapped(rows, b), rows[b := rows[b - 1]];
    answer := (m: int) => if m == n then swapped else rows;
    SwapKeeps(rows, key, b);
    Hidden(rows, b);
    forall m | m >= 1 ensures Paginate(answer(m), Page(m, pageSize)) == Paginate(seen, Page(m, pageSize)) {
      SwappedPage(rows, n, m, pageSize);
    }
    FollowEachIsFollow(answer, seen, Page(1, pageSize));
    FollowVisitsAll(seen, pageSize);
  }

  /**
   With an ordering that leaves ties open, as by created_at alone, following the links shows every row exactly
   once, whatever order each request sees, if and only if no tie stands across the start of a page.
   */
  lemma VisitsAllIffNoTie<T(!new)>(rows: seq<T>, key: T -> int, pageSize: int)
    requires 1 <= pageSize <= 100 && Distinct(rows) && NewestFirst(rows, key)
    ensures (forall answer: int -> seq<T> | Answers(answer, rows, key) ::
               multiset(Flatten(FollowEach(answer, |rows|, Page(1, pageSize)))) == multiset(rows))
            <==> NoTieAcrossPages(rows, key, pageSize)
  {
    if NoTieAcrossPages(rows, key, pageSize) {
      forall answer: int -> seq<T> | Answers(answer, rows, key)
        ensures multiset(Flatten(FollowEach(answer, |rows|, Page(1, pageSize)))) == multiset(rows)
      {
        UntiedVisitsAll(answer, rows, key, Page(1, pageSize));
        assert rows[0..] == rows;
      }
    } else {
      var n :| 0 < Offset(n, pageSize) < |rows|
               && key(rows[Offset(n, pageSize) - 1]) == key(rows[Offset(n, pageSize)]);
      var answer := TiedMissesARow(rows, key, n, pageSize);
      var missed := rows[Offset(n, pageSize)];
      assert multiset(Flatten(FollowEach(answer, |rows|, Page(1, pageSize))))[missed] == 0 < multiset(rows)[missed];
    }
  }

  /** A previous link leads back to the page whose next link led here. */
  lemma PreviousUndoesNext<T>(rows: seq<T>, p: Page)
    requires Valid(p) && Paginate(rows, p).next.Some?
    ensures var p' := p.(page := Paginate(rows, p).next.value);
            Valid(p') && Paginate(rows, p').previous == Some(p.page)
  {
  }
}
