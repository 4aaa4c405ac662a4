/**
 Fan-out read and merge over several projects, and keyset paging on top of it
 (experiments/cross-project-auth/lib/merge.ts). Timestamps are microseconds since
 the epoch; ids are elements of a total order. Every target answers the page query
 as the query text asks: filter by the cursor, order newest first, cut at `limit`.
 */
module Merge {
  import opened Sorting
  import opened Wrappers

  datatype Row = Row(id: nat, createdAt: int, body: string)
  datatype Cursor = Cursor(createdAt: int, id: nat)

  // ----- comparators and cursors -----

  function IdDesc(a: Row, b: Row): int {
    if a.id > b.id then -1 else if a.id < b.id then 1 else 0
  }

  function CmpExact(a: Row, b: Row): int {
    if a.createdAt != b.createdAt then (if a.createdAt > b.createdAt then -1 else 1) else IdDesc(a, b)
  }

  /** `Date.parse`: whole milliseconds, the rest dropped. */
  function Millis(micros: int): int { micros / 1000 }

  function CmpMs(a: Row, b: Row): int {
    var x, y := Millis(a.createdAt), Millis(b.createdAt);
    if x != y then y - x else IdDesc(a, b)
  }

  predicate ExactLe(a: Row, b: Row) { CmpExact(a, b) <= 0 }
  predicate MsLe(a: Row, b: Row) { CmpMs(a, b) <= 0 }

  /** `a` is listed strictly before `b`. */
  predicate Before(a: Row, b: Row) { CmpExact(a, b) < 0 }

  function ExactCursor(r: Row): Cursor { Cursor(r.createdAt, r.id) }
  function MsCursor(r: Row): Cursor { Cursor(Millis(r.createdAt) * 1000, r.id) }

  /** The `or` tree of the page query. */
  predicate After(r: Row, c: Option<Cursor>) {
    c.None? || r.createdAt < c.value.createdAt || (r.createdAt == c.value.createdAt && r.id < c.value.id)
  }

  ghost predicate UniqueIds(rows: seq<Row>) {
    forall i, j :: 0 <= i < j < |rows| ==> rows[i].id != rows[j].id
  }

  // ----- one page -----

  function Flatten(parts: seq<seq<Row>>): seq<Row> {
    if parts == [] then [] else parts[0] + Flatten(parts[1..])
  }

  function Matching(table: seq<Row>, c: Option<Cursor>): seq<Row> {
    Filter(table, r => After(r, c))
  }

  /** What one target answers to `pageQuery(limit, cursor)`. */
  function TargetPage(table: seq<Row>, c: Option<Cursor>, limit: nat): seq<Row> {
    Take(Sort(Matching(table, c), ExactLe), limit)
  }

  function TargetPages(tables: seq<seq<Row>>, c: Option<Cursor>, limit: nat): seq<Row> {
    if tables == [] then [] else TargetPage(tables[0], c, limit) + TargetPages(tables[1..], c, limit)
  }

  /** The merged read: concatenate, sort with the chosen comparator, cut. */
  function MergedPage(tables: seq<seq<Row>>, c: Option<Cursor>, limit: nat, cmp: (Row, Row) -> bool): seq<Row> {
    Take(Sort(TargetPages(tables, c, limit), cmp), limit)
  }

  lemma {:induction false} Orders()
    ensures TotalPreorder(ExactLe) && TotalPreorder(MsLe)
  {
  }

  lemma {:induction false} UniqueIdsNoTies(rows: seq<Row>, le: (Row, Row) -> bool)
    requires UniqueIds(rows)
    requires forall x, y :: le(x, y) && le(y, x) ==> x.id == y.id
    ensures NoTies(multiset(rows), le)
  {
    forall x | x in multiset(rows) ensures multiset(rows)[x] == 1 {
      OccursOnce(rows, x);
    }
    forall x, y | x in multiset(rows) && y in multiset(rows) && le(x, y) && le(y, x) ensures x == y {
      var i :| 0 <= i < |rows| && rows[i] == x;
      var j :| 0 <= j < |rows| && rows[j] == y;
    }
  }

  lemma {:induction false} OccursOnce(rows: seq<Row>, x: Row)
    requires UniqueIds(rows)
    ensures multiset(rows)[x] <= 1
  {
    if rows != [] {
      assert rows == [rows[0]] + rows[1..];
      OccursOnce(rows[1..], x);
      if rows[0] == x {
        assert forall y :: y in rows[1..] ==> y.id != x.id;
        assert x !in rows[1..];
      }
    }
  }

  lemma {:induction false} FilterFlatten(tables: seq<seq<Row>>, c: Option<Cursor>)
    requires tables != []
    ensures Matching(Flatten(tables), c) == Matching(tables[0], c) + Matching(Flatten(tables[1..]), c)
  {
    FilterConcat(tables[0], Flatten(tables[1..]), r => After(r, c));
  }

  lemma {:induction false} PageIsPart(table: seq<Row>, c: Option<Cursor>, limit: nat)
    ensures multiset(TargetPage(table, c, limit)) <= multiset(Matching(table, c))
  {
    var s := Sort(Matching(table, c), ExactLe);
    SortPermutes(Matching(table, c), ExactLe);
    assert s == Take(s, limit) + s[|Take(s, limit)|..];
  }

  lemma {:induction false} PagesArePart(tables: seq<seq<Row>>, c: Option<Cursor>, limit: nat)
    ensures multiset(TargetPages(tables, c, limit)) <= multiset(Matching(Flatten(tables), c))
  {
    if tables != [] {
      PageIsPart(tables[0], c, limit);
      PagesArePart(tables[1..], c, limit);
      FilterFlatten(tables, c);
    }
  }

  lemma {:induction false} AbsorbTable(mine: seq<Row>, pages: seq<Row>, others: seq<Row>, rest: seq<Row>, limit: nat)
    requires multiset(pages) <= multiset(others) && NoTies(multiset(mine + others + rest), ExactLe)
    ensures Take(Sort(Take(Sort(mine, ExactLe), limit) + pages + rest, ExactLe), limit)
         == Take(Sort(pages + (mine + rest), ExactLe), limit)
  {
    Orders();
    var page := Take(Sort(mine, ExactLe), limit);
    NoTiesPart(multiset(mine + (pages + rest)), multiset(mine + others + rest), ExactLe);
    TakeAbsorbs(mine, pages + rest, ExactLe, limit);
    assert page + pages + rest == page + (pages + rest);
    SortOfPermutation(mine + (pages + rest), pages + (mine + rest), ExactLe);
  }

  lemma {:induction false} MergeWithRest(tables: seq<seq<Row>>, c: Option<Cursor>, limit: nat, rest: seq<Row>)
    requires NoTies(multiset(Matching(Flatten(tables), c) + rest), ExactLe)
    ensures Take(Sort(TargetPages(tables, c, limit) + rest, ExactLe), limit)
         == Take(Sort(Matching(Flatten(tables), c) + rest, ExactLe), limit)
  {
    if tables != [] {
      var mine, others := Matching(tables[0], c), Matching(Flatten(tables[1..]), c);
      FilterFlatten(tables, c);
      PagesArePart(tables[1..], c, limit);
      AbsorbTable(mine, TargetPages(tables[1..], c, limit), others, rest, limit);
      assert multiset(others + (mine + rest)) == multiset(mine + others + rest);
      MergeWithRest(tables[1..], c, limit, mine + rest);
      Orders();
      SortOfPermutation(others + (mine + rest), mine + others + rest, ExactLe);
    }
  }

  lemma {:induction false} MatchingUnique(rows: seq<Row>, c: Option<Cursor>, le: (Row, Row) -> bool)
    requires UniqueIds(rows)
    requires forall x, y :: le(x, y) && le(y, x) ==> x.id == y.id
    ensures NoTies(multiset(Matching(rows, c)), le)
  {
    UniqueIdsNoTies(rows, le);
    FilterIsPart(rows, r => After(r, c));
    NoTiesPart(multiset(Matching(rows, c)), multiset(rows), le);
  }

  /** Merging every target's first `limit` rows gives the first `limit` rows of the union. */
  lemma {:induction false} MergeIsExact(tables: seq<seq<Row>>, c: Option<Cursor>, limit: nat)
    requires UniqueIds(Flatten(tables))
    ensures MergedPage(tables, c, limit, ExactLe) == Take(Matching(Sort(Flatten(tables), ExactLe), c), limit)
  {
    Orders();
    var all := Flatten(tables);
    MatchingUnique(all, c, ExactLe);
    UniqueIdsNoTies(all, ExactLe);
    assert Matching(all, c) + [] == Matching(all, c);
    assert TargetPages(tables, c, limit) + [] == TargetPages(tables, c, limit);
    MergeWithRest(tables, c, limit, []);
    SortFilter(all, r => After(r, c), ExactLe);
  }

  // ----- the two failure policies -----

  datatype Policy = All | Settled
  datatype LegRun = Answered(table: seq<Row>) | Failed(message: string)
  datatype FanResult = FanResult(ok: bool, partial: bool, rows: seq<Row>)

  function AnsweredTables(legs: seq<LegRun>): seq<seq<Row>> {
    if legs == [] then []
    else if legs[0].Answered? then [legs[0].table] + AnsweredTables(legs[1..])
    else AnsweredTables(legs[1..])
  }

  function Fanout(legs: seq<LegRun>, c: Option<Cursor>, limit: nat, policy: Policy, exact: bool): FanResult {
    var tables := AnsweredTables(legs);
    var failed := |legs| - |tables|;
    if policy.All? && failed > 0 then FanResult(false, false, [])
    else FanResult(failed == 0, failed > 0 && tables != [], MergedPage(tables, c, limit, if exact then ExactLe else MsLe))
  }

  lemma {:induction false} AnsweredCount(legs: seq<LegRun>)
    ensures |AnsweredTables(legs)| <= |legs|
    ensures |AnsweredTables(legs)| == |legs| <==> forall i :: 0 <= i < |legs| ==> legs[i].Answered?
    ensures AnsweredTables(legs) != [] <==> exists i :: 0 <= i < |legs| && legs[i].Answered?
    ensures forall i :: 0 <= i < |legs| && legs[i].Answered? ==> legs[i].table in AnsweredTables(legs)
  {
    if legs != [] {
      AnsweredCount(legs[1..]);
      assert forall i :: 1 <= i < |legs| ==> legs[i] == legs[1..][i - 1];
    }
  }

  // ----- walking the pages -----

  /** Rows at the head of a listing that the cursor does not reach past. */
  ghost function Skipped(s: seq<Row>, c: Option<Cursor>): (k: nat)
    ensures k <= |s|
  {
    if s == [] || After(s[0], c) then 0 else 1 + Skipped(s[1..], c)
  }

  /** In a listing, the rows after a cursor are a suffix. */
  lemma {:induction false} CursorCutsSuffix(s: seq<Row>, c: Option<Cursor>)
    requires SortedBy(s, ExactLe)
    ensures Matching(s, c) == s[Skipped(s, c)..]
    ensures forall i :: 0 <= i < |s| ==> (After(s[i], c) <==> Skipped(s, c) <= i)
  {
    if s != [] {
      CursorCutsSuffix(s[1..], c);
      if After(s[0], c) {
        forall i | 0 <= i < |s| ensures After(s[i], c) { assert i > 0 ==> ExactLe(s[0], s[i]); }
        assert Skipped(s[1..], c) == 0 by { if |s| > 1 { assert s[1..][0] == s[1]; } }
        assert s == [s[0]] + s[1..];
      } else {
        forall i | 0 <= i < |s| ensures After(s[i], c) <==> Skipped(s, c) <= i {
          if i > 0 { assert s[i] == s[1..][i - 1]; }
        }
      }
    }
  }

  /** A row the walk passes over when it continues from the page that ends in `last`. */
  predicate LostAfter(last: Row, x: Row, cursorOf: Row -> Cursor) {
    Before(last, x) && !After(x, Some(cursorOf(last)))
  }

  ghost predicate Lost(lasts: seq<Row>, x: Row, cursorOf: Row -> Cursor) {
    exists i :: 0 <= i < |lasts| && LostAfter(lasts[i], x, cursorOf)
  }

  /** Continuing from `cursorOf(r)` reaches only rows listed after `r`. */
  ghost predicate MovesOn(cursorOf: Row -> Cursor) {
    forall r, x :: After(x, Some(cursorOf(r))) ==> Before(r, x)
  }

  ghost predicate LosesNothing(cursorOf: Row -> Cursor) {
    forall r, x :: !LostAfter(r, x, cursorOf)
  }

  ghost predicate StrictlyListed(rows: seq<Row>) {
    forall i, j :: 0 <= i < j < |rows| ==> Before(rows[i], rows[j])
  }

  lemma {:induction false} ListingIsStrict(rows: seq<Row>)
    requires UniqueIds(rows)
    ensures var s := Sort(rows, ExactLe); StrictlyListed(s) && SortedBy(s, ExactLe)
    ensures forall x :: x in Sort(rows, ExactLe) <==> x in rows
  {
    Orders();
    var s := Sort(rows, ExactLe);
    SortSorted(rows, ExactLe);
    SortPermutes(rows, ExactLe);
    UniqueIdsNoTies(rows, ExactLe);
    forall i, j | 0 <= i < j < |s| ensures Before(s[i], s[j]) {
      assert ExactLe(s[i], s[j]) && s[i] in multiset(s) && s[j] in multiset(s);
      OccursTwice(s, i, j);
    }
    forall x ensures x in s <==> x in rows {
      assert x in multiset(s) <==> x in multiset(rows);
    }
  }

  /** What is known between pages: `k` rows of the listing have been passed, each returned or lost. */
  ghost predicate Passed(s: seq<Row>, k: nat, rows: seq<Row>, lasts: seq<Row>, cursorOf: Row -> Cursor) {
    && k <= |s|
    && StrictlyListed(rows)
    && (forall x :: x in rows ==> exists i :: 0 <= i < k && s[i] == x)
    && (forall i :: 0 <= i < k ==> (s[i] in rows <==> !Lost(lasts, s[i], cursorOf)))
    && (forall i :: k <= i < |s| ==> !Lost(lasts, s[i], cursorOf))
    && (forall i :: 0 <= i < |lasts| ==> lasts[i] in rows)
  }

  lemma {:induction false} LostExtends(lasts: seq<Row>, last: Row, x: Row, cursorOf: Row -> Cursor)
    ensures Lost(lasts + [last], x, cursorOf) <==> Lost(lasts, x, cursorOf) || LostAfter(last, x, cursorOf)
  {
    var more := lasts + [last];
    if Lost(lasts, x, cursorOf) {
      var i :| 0 <= i < |lasts| && LostAfter(lasts[i], x, cursorOf);
      assert LostAfter(more[i], x, cursorOf);
    }
    if LostAfter(last, x, cursorOf) { assert LostAfter(more[|lasts|], x, cursorOf); }
  }

  lemma {:induction false} PageJoins(s: seq<Row>, k: nat, rows: seq<Row>, lasts: seq<Row>, cursorOf: Row -> Cursor,
                                     page: seq<Row>)
    requires StrictlyListed(s) && Passed(s, k, rows, lasts, cursorOf)
    requires page <= s[k..]
    ensures Passed(s, k + |page|, rows + page, lasts, cursorOf)
  {
    var more, m := rows + page, k + |page|;
    assert forall i :: 0 <= i < |page| ==> page[i] == s[k + i];
    forall i, j | 0 <= i < j < |more| ensures Before(more[i], more[j]) {
      if i < |rows| <= j {
        assert more[i] in rows;
        var q :| 0 <= q < k && s[q] == more[i];
        assert more[j] == s[k + (j - |rows|)];
      }
    }
    forall x | x in more ensures exists i :: 0 <= i < m && s[i] == x {
      if x !in rows {
        var q :| 0 <= q < |page| && page[q] == x;
        assert s[k + q] == x;
      }
    }
    forall i | 0 <= i < m ensures s[i] in more <==> !Lost(lasts, s[i], cursorOf) {
      if i < k {
        forall q | 0 <= q < |page| ensures page[q] != s[i] { assert Before(s[i], s[k + q]); }
      } else {
        assert s[i] == page[i - k];
      }
    }
  }

  lemma {:induction false} BoundaryPasses(s: seq<Row>, k: nat, rows: seq<Row>, lasts: seq<Row>,
                                          cursorOf: Row -> Cursor, k': nat)
    requires StrictlyListed(s) && Passed(s, k, rows, lasts, cursorOf) && 0 < k <= k' <= |s| && s[k - 1] in rows
    requires AtRow(s, k', Some(cursorOf(s[k - 1])))
    ensures Passed(s, k', rows, lasts + [s[k - 1]], cursorOf)
  {
    var last := s[k - 1];
    forall i | 0 <= i < |s| ensures Lost(lasts + [last], s[i], cursorOf) <==> Lost(lasts, s[i], cursorOf) || k <= i < k' {
      LostExtends(lasts, last, s[i], cursorOf);
      if i < k - 1 { assert Before(s[i], last); }
      if k - 1 < i { assert Before(last, s[i]); }
    }
    forall i | k <= i < k' ensures s[i] !in rows {
      forall q | 0 <= q < k ensures s[q] != s[i] { assert Before(s[q], s[i]); }
    }
  }

  lemma {:induction false} SameMembers(a: seq<Row>, b: seq<Row>)
    requires StrictlyListed(a) && StrictlyListed(b)
    requires forall x :: x in a <==> x in b
    ensures a == b
  {
    if a == [] {
      if b != [] { HasMember(b); }
    } else {
      assert a[0] in b && b[0] in a;
      FirstIsFirst(a, b[0]);
      FirstIsFirst(b, a[0]);
      forall x ensures x in a[1..] <==> x in b[1..] {
        TailMembers(a, x);
        TailMembers(b, x);
      }
      SameMembers(a[1..], b[1..]);
      assert a == [a[0]] + a[1..] && b == [b[0]] + b[1..];
    }
  }

  lemma {:induction false} FirstIsFirst(a: seq<Row>, x: Row)
    requires StrictlyListed(a) && x in a
    ensures a[0] == x || Before(a[0], x)
  {
    var i :| 0 <= i < |a| && a[i] == x;
  }

  lemma {:induction false} HasMember(a: seq<Row>)
    requires a != []
    ensures exists x :: x in a
  {
    assert a[0] in a;
  }

  lemma {:induction false} TailMembers(a: seq<Row>, x: Row)
    requires a != [] && StrictlyListed(a)
    ensures x in a[1..] <==> x in a && x != a[0]
  {
    if x in a[1..] {
      var i :| 0 <= i < |a[1..]| && a[1..][i] == x;
      assert Before(a[0], a[i + 1]);
    }
    if x in a && x != a[0] {
      var i :| 0 <= i < |a| && a[i] == x;
      assert a[1..][i - 1] == x;
    }
  }

  lemma {:induction false} PassedIsPrefix(s: seq<Row>, k: nat, rows: seq<Row>, lasts: seq<Row>, cursorOf: Row -> Cursor)
    requires StrictlyListed(s) && Passed(s, k, rows, lasts, cursorOf) && LosesNothing(cursorOf)
    ensures rows == s[..k]
  {
    forall x ensures x in rows <==> x in s[..k] {
      if x in s[..k] {
        var i :| 0 <= i < k && s[..k][i] == x;
        assert s[i] in rows;
      }
    }
    SameMembers(rows, s[..k]);
  }

  /** Where the walk stands before a page: the next page starts at row `k` of the listing. */
  ghost predicate AtRow(s: seq<Row>, k: nat, cursor: Option<Cursor>) {
    forall i :: 0 <= i < |s| ==> (After(s[i], cursor) <==> k <= i)
  }

  lemma {:induction false} NextPage(tables: seq<seq<Row>>, s: seq<Row>, k: nat, cursor: Option<Cursor>, limit: nat)
    requires UniqueIds(Flatten(tables)) && s == Sort(Flatten(tables), ExactLe)
    requires k <= |s| && AtRow(s, k, cursor)
    ensures MergedPage(tables, cursor, limit, ExactLe) == Take(s[k..], limit)
    ensures StrictlyListed(s) && SortedBy(s, ExactLe)
  {
    ListingIsStrict(Flatten(tables));
    MergeIsExact(tables, cursor, limit);
    CursorCutsSuffix(s, cursor);
    SkippedIs(s, cursor, k);
  }

  lemma {:induction false} NextRow(s: seq<Row>, k: nat, cursorOf: Row -> Cursor) returns (k': nat)
    requires StrictlyListed(s) && SortedBy(s, ExactLe) && MovesOn(cursorOf) && 0 < k <= |s|
    ensures k <= k' <= |s| && AtRow(s, k', Some(cursorOf(s[k - 1])))
  {
    var cursor := Some(cursorOf(s[k - 1]));
    CursorCutsSuffix(s, cursor);
    k' := Skipped(s, cursor);
    assert !Before(s[k - 1], s[k - 1]);
    assert !After(s[k - 1], cursor);
  }

  /** One page: either it is short and ends the listing, or the walk goes on after its last row. */
  lemma {:induction false} PageStep(s: seq<Row>, k: nat, rows: seq<Row>, lasts: seq<Row>, cursorOf: Row -> Cursor,
                                    limit: nat, page: seq<Row>) returns (k': nat)
    requires limit >= 1 && StrictlyListed(s) && SortedBy(s, ExactLe) && MovesOn(cursorOf)
    requires Passed(s, k, rows, lasts, cursorOf) && page == Take(s[k..], limit)
    ensures |page| < limit ==> k' == |s| && Passed(s, k', rows + page, lasts, cursorOf)
    ensures |page| >= limit ==> var last := page[|page| - 1];
      AtRow(s, k', Some(cursorOf(last))) && Passed(s, k', rows + page, lasts + [last], cursorOf) && |page| == limit
  {
    PageJoins(s, k, rows, lasts, cursorOf, page);
    k' := k + |page|;
    if |page| >= limit { k' := PageEnds(s, k', rows + page, lasts, cursorOf, page[|page| - 1]); }
  }

  lemma {:induction false} PageEnds(s: seq<Row>, k: nat, rows: seq<Row>, lasts: seq<Row>, cursorOf: Row -> Cursor,
                                    last: Row) returns (k': nat)
    requires StrictlyListed(s) && SortedBy(s, ExactLe) && MovesOn(cursorOf)
    requires Passed(s, k, rows, lasts, cursorOf) && rows != [] && 0 < k && rows[|rows| - 1] == last == s[k - 1]
    ensures AtRow(s, k', Some(cursorOf(last))) && Passed(s, k', rows, lasts + [last], cursorOf)
  {
    k' := NextRow(s, k, cursorOf);
    BoundaryPasses(s, k, rows, lasts, cursorOf, k');
  }

  /** How a walk ends: on a short page, at the page cap, or on a read that fails. */
  datatype End = Exhausted | Capped | Errored

  ghost predicate NoneFailed(fails: nat -> bool, pages: nat) {
    forall q: nat :: q < pages ==> !fails(q)
  }

  lemma {:induction false} NoneFailedMore(fails: nat -> bool, pages: nat)
    requires NoneFailed(fails, pages) && !fails(pages)
    ensures NoneFailed(fails, pages + 1)
  {
  }

  /** The page the walk ends at: no read before it failed, and an error is that of the next read. */
  ghost predicate EndsAt(end: End, pages: nat, cap: nat, fails: nat -> bool) {
    && pages <= cap && NoneFailed(fails, pages)
    && (end.Exhausted? ==> pages > 0)
    && (end.Capped? ==> pages == cap)
    && (end.Errored? ==> pages < cap && fails(pages))
  }

  /** How many full pages a walk has read: all but the short one that ends it. */
  function FullPages(end: End, pages: nat): int { if end.Exhausted? then pages - 1 else pages }

  /** How many rows that makes. */
  ghost predicate RowCount(end: End, n: nat, pages: nat, limit: nat) {
    if end.Exhausted? then (pages - 1) * limit <= n < pages * limit else n == pages * limit
  }

  /** The rows after which a full page ended: every `limit`-th one. */
  ghost predicate AtPageEnds(ends: seq<nat>, limit: nat) {
    forall j :: 0 <= j < |ends| ==> ends[j] == (j + 1) * limit
  }

  ghost predicate IsRowBefore(rows: seq<Row>, n: int, last: Row) { 0 < n <= |rows| && rows[n - 1] == last }

  /** The last rows of the full pages: every `limit`-th row. */
  ghost predicate PageLasts(rows: seq<Row>, lasts: seq<Row>, limit: nat) {
    forall j :: 0 <= j < |lasts| ==> IsRowBefore(rows, (j + 1) * limit, lasts[j])
  }

  lemma {:induction false} PageLastsStay(rows: seq<Row>, lasts: seq<Row>, limit: nat, page: seq<Row>)
    requires PageLasts(rows, lasts, limit)
    ensures PageLasts(rows + page, lasts, limit)
  {
    forall j | 0 <= j < |lasts| ensures IsRowBefore(rows + page, (j + 1) * limit, lasts[j]) {
      RowStays(rows, page, (j + 1) * limit, lasts[j]);
    }
  }

  lemma {:induction false} RowStays(rows: seq<Row>, page: seq<Row>, n: int, last: Row)
    requires IsRowBefore(rows, n, last)
    ensures IsRowBefore(rows + page, n, last)
  {
  }

  lemma {:induction false} PageLastsMore(rows: seq<Row>, lasts: seq<Row>, limit: nat, last: Row)
    requires PageLasts(rows, lasts, limit) && IsRowBefore(rows, (|lasts| + 1) * limit, last)
    ensures PageLasts(rows, lasts + [last], limit)
  {
    var more := lasts + [last];
    forall j | 0 <= j < |more| ensures IsRowBefore(rows, (j + 1) * limit, more[j]) {
      if j < |lasts| { assert more[j] == lasts[j]; }
    }
  }

  /** Between two pages of a walk, with `full` rows returned and `k` rows of the listing `s` passed. */
  ghost predicate Between(s: seq<Row>, k: nat, rows: seq<Row>, lasts: seq<Row>, cursorOf: Row -> Cursor,
                          cursor: Option<Cursor>, full: nat)
  {
    Passed(s, k, rows, lasts, cursorOf) && AtRow(s, k, cursor) && |rows| == full
  }

  /** What a walk has returned when its reads asked for `full` rows together. */
  ghost predicate Walked(tables: seq<seq<Row>>, cursorOf: Row -> Cursor, limit: nat, rows: seq<Row>, lasts: seq<Row>,
                         full: nat, end: End) {
    && StrictlyListed(rows) && (forall x :: x in rows ==> x in Flatten(tables) && !Lost(lasts, x, cursorOf))
    && (forall i :: 0 <= i < |lasts| ==> lasts[i] in rows)
    && (end.Exhausted? ==> forall x :: x in Flatten(tables) ==> (x in rows <==> !Lost(lasts, x, cursorOf)))
    && (if end.Exhausted? then full - limit <= |rows| < full else |rows| == full)
    && (LosesNothing(cursorOf) ==> rows == Take(Sort(Flatten(tables), ExactLe), full))
  }

  lemma {:induction false} WalkStops(tables: seq<seq<Row>>, s: seq<Row>, k: nat, rows: seq<Row>, lasts: seq<Row>,
                                     cursorOf: Row -> Cursor, limit: nat, full: nat, end: End)
    requires UniqueIds(Flatten(tables)) && s == Sort(Flatten(tables), ExactLe) && Passed(s, k, rows, lasts, cursorOf)
    requires if end.Exhausted? then k == |s| && full - limit <= |rows| < full else |rows| == full
    ensures Walked(tables, cursorOf, limit, rows, lasts, full, end)
  {
    WalkEnds(tables, s, k, rows, lasts, cursorOf, full);
  }

  lemma {:induction false} WalkStarts(s: seq<Row>, cursorOf: Row -> Cursor)
    ensures Between(s, 0, [], [], cursorOf, None, 0)
  {
  }

  lemma {:induction false} WalkStep(tables: seq<seq<Row>>, s: seq<Row>, k: nat, rows: seq<Row>, lasts: seq<Row>,
                                    cursorOf: Row -> Cursor, cursor: Option<Cursor>, limit: nat, full: nat,
                                    page: seq<Row>) returns (k': nat)
    requires limit >= 1 && UniqueIds(Flatten(tables)) && s == Sort(Flatten(tables), ExactLe) && MovesOn(cursorOf)
    requires Between(s, k, rows, lasts, cursorOf, cursor, full) && page == MergedPage(tables, cursor, limit, ExactLe)
    ensures |page| < limit ==> k' == |s| && Passed(s, k', rows + page, lasts, cursorOf)
    ensures |page| >= limit ==> var last := page[|page| - 1];
      Between(s, k', rows + page, lasts + [last], cursorOf, Some(cursorOf(last)), full + limit) && |page| == limit
  {
    NextPage(tables, s, k, cursor, limit);
    k' := PageStep(s, k, rows, lasts, cursorOf, limit, page);
  }

  /**
   Page through the merged read until a short page, `cap` pages or a failed read (page
   number `q` fails when `fails(q)`), continuing each time from `cursorOf` of the page's
   last row. Nothing is ever returned twice, and on an exhausted walk the rows that are
   missing are exactly those lost at a page boundary. However it ends, a cursor that
   loses nothing makes the walk a prefix of the sorted union.
   */
  method Walk(tables: seq<seq<Row>>, cursorOf: Row -> Cursor, limit: nat, cap: nat, fails: nat -> bool)
    returns (rows: seq<Row>, lasts: seq<Row>, pages: nat, end: End)
    requires limit >= 1 && UniqueIds(Flatten(tables)) && MovesOn(cursorOf)
    ensures EndsAt(end, pages, cap, fails)
    ensures Walked(tables, cursorOf, limit, rows, lasts, pages * limit, end)
    ensures PageLasts(rows, lasts, limit) && |lasts| == FullPages(end, pages)
  {
    ghost var s := Sort(Flatten(tables), ExactLe);
    rows, lasts, pages := [], [], 0;
    var cursor := None;
    ghost var k: nat, full: nat := 0, 0;
    WalkStarts(s, cursorOf);
    while pages < cap
      invariant pages <= cap && NoneFailed(fails, pages) && full == pages * limit
      invariant Between(s, k, rows, lasts, cursorOf, cursor, full)
      invariant PageLasts(rows, lasts, limit) && |lasts| == pages
    {
      if fails(pages) {
        WalkStops(tables, s, k, rows, lasts, cursorOf, limit, full, Errored);
        return rows, lasts, pages, Errored;
      }
      NoneFailedMore(fails, pages);
      Multiply(pages, limit);
      var page := MergedPage(tables, cursor, limit, ExactLe);
      k := WalkStep(tables, s, k, rows, lasts, cursorOf, cursor, limit, full, page);
      PageLastsStay(rows, lasts, limit, page);
      rows, pages, full := rows + page, pages + 1, full + limit;
      if |page| < limit {
        WalkStops(tables, s, k, rows, lasts, cursorOf, limit, full, Exhausted);
        return rows, lasts, pages, Exhausted;
      }
      var last := page[|page| - 1];
      PageLastsMore(rows, lasts, limit, last);
      cursor, lasts := Some(cursorOf(last)), lasts + [last];
    }
    WalkStops(tables, s, k, rows, lasts, cursorOf, limit, full, Capped);
    return rows, lasts, pages, Capped;
  }

  lemma {:induction false} Multiply(a: nat, c: nat)
    ensures (a + 1) * c == a * c + c
  {
  }

  lemma {:induction false} WalkEnds(tables: seq<seq<Row>>, s: seq<Row>, k: nat, rows: seq<Row>, lasts: seq<Row>,
                                    cursorOf: Row -> Cursor, full: nat)
    requires UniqueIds(Flatten(tables)) && s == Sort(Flatten(tables), ExactLe) && Passed(s, k, rows, lasts, cursorOf)
    requires |rows| == full || (|rows| < full && k == |s|)
    ensures forall x :: x in rows ==> x in Flatten(tables) && !Lost(lasts, x, cursorOf)
    ensures k == |s| ==> forall x :: x in Flatten(tables) ==> (x in rows <==> !Lost(lasts, x, cursorOf))
    ensures LosesNothing(cursorOf) ==> rows == Take(s, full)
  {
    ListingIsStrict(Flatten(tables));
    if LosesNothing(cursorOf) { PassedIsPrefix(s, k, rows, lasts, cursorOf); }
    forall x | x in Flatten(tables) && k == |s| ensures x in rows <==> !Lost(lasts, x, cursorOf) {
      assert x in s;
      var i :| 0 <= i < |s| && s[i] == x;
    }
  }

  lemma {:induction false} SkippedIs(s: seq<Row>, c: Option<Cursor>, k: nat)
    requires SortedBy(s, ExactLe) && k <= |s|
    requires AtRow(s, k, c)
    ensures Skipped(s, c) == k
  {
    CursorCutsSuffix(s, c);
    var q := Skipped(s, c);
    assert q < |s| ==> After(s[q], c);
    assert k < |s| ==> After(s[k], c);
  }

  // ----- the two cursors -----

  /** The cursor taken verbatim from the row continues right after it. */
  lemma {:induction false} ExactCursorIsLossless()
    ensures MovesOn(ExactCursor) && LosesNothing(ExactCursor)
  {
  }

  /**
   Keyset paging with the exact cursor lists the union once, in order: the first pages
   of it when a read fails or the cap is reached, all of it otherwise.
   */
  method WalkExact(tables: seq<seq<Row>>, limit: nat, cap: nat, fails: nat -> bool)
    returns (rows: seq<Row>, pages: nat, end: End)
    requires limit >= 1 && UniqueIds(Flatten(tables))
    ensures EndsAt(end, pages, cap, fails)
    ensures rows == Take(Sort(Flatten(tables), ExactLe), pages * limit)
    ensures end.Exhausted? || (end.Capped? && |Flatten(tables)| <= cap * limit) ==>
      rows == Sort(Flatten(tables), ExactLe) && StrictlyListed(rows) && multiset(rows) == multiset(Flatten(tables))
  {
    ExactCursorIsLossless();
    var lasts;
    rows, lasts, pages, end := Walk(tables, ExactCursor, limit, cap, fails);
    WholeListing(Flatten(tables), rows, pages * limit);
  }

  lemma {:induction false} WholeListing(all: seq<Row>, rows: seq<Row>, n: nat)
    requires UniqueIds(all) && rows == Take(Sort(all, ExactLe), n)
    ensures |rows| < n || |all| <= n ==> rows == Sort(all, ExactLe) && StrictlyListed(rows) && multiset(rows) == multiset(all)
  {
    ListingIsStrict(all);
    SortPermutes(all, ExactLe);
  }

  /**
   The millisecond cursor never repeats a row. It loses exactly the rows listed
   after `last` that share its millisecond, except those at the whole millisecond
   with a smaller id; so it loses something only when `last` is inside a millisecond.
   */
  lemma {:induction false} MsCursorLoss(last: Row, x: Row)
    ensures MovesOn(MsCursor)
    ensures LostAfter(last, x, MsCursor) <==>
              && Before(last, x)
              && Millis(x.createdAt) == Millis(last.createdAt)
              && (x.createdAt % 1000 != 0 || last.id <= x.id)
    ensures last.createdAt % 1000 == 0 ==> !LostAfter(last, x, MsCursor)
  {
  }

  // ----- the millisecond comparator -----

  lemma {:induction false} CountBeforePart(tables: seq<seq<Row>>, c: Option<Cursor>, limit: nat, i: nat, x: Row)
    requires i < |tables|
    ensures CountBefore(TargetPages(tables, c, limit), x, MsLe) >= CountBefore(TargetPage(tables[i], c, limit), x, MsLe)
  {
    CountBeforeConcat(TargetPage(tables[0], c, limit), TargetPages(tables[1..], c, limit), x, MsLe);
    if i > 0 { CountBeforePart(tables[1..], c, limit, i - 1, x); }
  }

  lemma {:induction false} SortedCount(s: seq<Row>, k: nat)
    requires SortedBy(s, MsLe) && k < |s|
    ensures CountBefore(s, s[k], MsLe) <= k
  {
    var head, tail := s[..k], s[k..];
    assert s == head + tail;
    CountBeforeConcat(head, tail, s[k], MsLe);
    forall y | y in tail ensures MsLe(s[k], y) {
      var j :| 0 <= j < |tail| && tail[j] == y;
      if j > 0 { assert MsLe(s[k], s[k + j]); }
    }
    CountBeforeNone(tail, s[k], MsLe);
  }

  lemma {:induction false} PagesHave(tables: seq<seq<Row>>, c: Option<Cursor>, limit: nat, i: nat, x: Row)
    requires i < |tables| && x in TargetPage(tables[i], c, limit)
    ensures x in TargetPages(tables, c, limit)
  {
    if i > 0 { PagesHave(tables[1..], c, limit, i - 1, x); }
  }

  /** A row a target holds back has that target's whole page listed before it. */
  lemma {:induction false} HeldBack(table: seq<Row>, c: Option<Cursor>, limit: nat, x: Row)
    requires x in table && After(x, c) && x !in TargetPage(table, c, limit)
    ensures |TargetPage(table, c, limit)| == limit
    ensures forall y :: y in TargetPage(table, c, limit) ==> ExactLe(y, x)
  {
    Orders();
    var m := Matching(table, c);
    var s := Sort(m, ExactLe);
    var page := Take(s, limit);
    SortSorted(m, ExactLe);
    SortPermutes(m, ExactLe);
    FilterMember(table, r => After(r, c), x);
    assert x in multiset(s);
    var k :| 0 <= k < |s| && s[k] == x;
    forall j | 0 <= j < |page| ensures s[j] != x { assert page[j] in page; }
    forall y | y in page ensures ExactLe(y, x) {
      var j :| 0 <= j < |page| && page[j] == y;
      assert ExactLe(s[j], s[k]);
    }
  }

  lemma {:induction false} MsPage(tables: seq<seq<Row>>, c: Option<Cursor>, limit: nat)
    ensures var s := Sort(TargetPages(tables, c, limit), MsLe);
      SortedBy(s, MsLe) && forall x :: x in s <==> x in TargetPages(tables, c, limit)
  {
    Orders();
    var pages := TargetPages(tables, c, limit);
    SortSorted(pages, MsLe);
    SortPermutes(pages, MsLe);
    forall x ensures x in Sort(pages, MsLe) <==> x in pages {
      assert x in multiset(Sort(pages, MsLe)) <==> x in multiset(pages);
    }
  }

  /** A full page merged with the lossy comparator never comes back through the millisecond cursor. */
  lemma {:induction false} MsCompareNeverRepeats(tables: seq<seq<Row>>, c: Option<Cursor>, limit: nat, y: Row)
    requires limit >= 1 && |MergedPage(tables, c, limit, MsLe)| == limit
    requires y in MergedPage(tables, c, limit, MsLe)
    ensures !After(y, Some(MsCursor(MergedPage(tables, c, limit, MsLe)[limit - 1])))
  {
    MsPage(tables, c, limit);
    var s := Sort(TargetPages(tables, c, limit), MsLe);
    var page := Take(s, limit);
    var j :| 0 <= j < |page| && page[j] == y;
    if j < limit - 1 { assert MsLe(s[j], s[limit - 1]); }
  }

  /** A row left out of a full page merged with the lossy comparator is no newer than its last millisecond. */
  lemma {:induction false} LeftOutIsOld(tables: seq<seq<Row>>, c: Option<Cursor>, limit: nat, i: nat, x: Row)
    requires limit >= 1 && |MergedPage(tables, c, limit, MsLe)| == limit
    requires i < |tables| && x in tables[i] && After(x, c) && x !in MergedPage(tables, c, limit, MsLe)
    ensures Millis(x.createdAt) <= Millis(MergedPage(tables, c, limit, MsLe)[limit - 1].createdAt)
  {
    MsPage(tables, c, limit);
    var s := Sort(TargetPages(tables, c, limit), MsLe);
    var page := Take(s, limit);
    var last := s[limit - 1];
    if x in TargetPage(tables[i], c, limit) {
      PagesHave(tables, c, limit, i, x);
      var k :| 0 <= k < |s| && s[k] == x;
      forall j | 0 <= j < |page| ensures s[j] != x { assert page[j] in page; }
      assert MsLe(s[limit - 1], s[k]);
    } else {
      HeldBack(tables[i], c, limit, x);
      CountBeforePart(tables, c, limit, i, last);
      CountBeforeSort(TargetPages(tables, c, limit), last, MsLe);
      SortedCount(s, limit - 1);
      if Millis(x.createdAt) > Millis(last.createdAt) {
        CountBeforeAll(TargetPage(tables[i], c, limit), last, MsLe);
      }
    }
  }

  /** What a page that ends in `last` puts out of the millisecond cursor's reach. */
  predicate MsLostAfter(last: Row, x: Row) {
    Millis(x.createdAt) == Millis(last.createdAt) && (x.createdAt % 1000 != 0 || last.id <= x.id)
  }

  /**
   Merging with the lossy comparator and continuing with the millisecond cursor loses,
   of the rows not on the page, exactly those of the last row's millisecond that are
   inside it or, at its start, have no smaller id.
   */
  lemma {:induction false} MsCompareLoss(tables: seq<seq<Row>>, c: Option<Cursor>, limit: nat, i: nat, x: Row)
    requires limit >= 1 && |MergedPage(tables, c, limit, MsLe)| == limit
    requires i < |tables| && x in tables[i] && After(x, c) && x !in MergedPage(tables, c, limit, MsLe)
    ensures var last := MergedPage(tables, c, limit, MsLe)[limit - 1];
      !After(x, Some(MsCursor(last))) <==> MsLostAfter(last, x)
  {
    LeftOutIsOld(tables, c, limit, i, x);
  }

  // ----- a whole walk with the millisecond comparator and cursor -----

  lemma {:induction false} PagesOrigin(tables: seq<seq<Row>>, c: Option<Cursor>, limit: nat, x: Row) returns (i: nat)
    requires x in TargetPages(tables, c, limit)
    ensures i < |tables| && x in TargetPage(tables[i], c, limit)
  {
    if x in TargetPage(tables[0], c, limit) {
      i := 0;
    } else {
      i := PagesOrigin(tables[1..], c, limit, x);
      i := i + 1;
    }
  }

  lemma {:induction false} TargetPageMember(table: seq<Row>, c: Option<Cursor>, limit: nat, x: Row)
    requires x in TargetPage(table, c, limit)
    ensures x in table && After(x, c)
  {
    PageIsPart(table, c, limit);
    assert x in multiset(TargetPage(table, c, limit));
    assert x in Matching(table, c);
    FilterMember(table, r => After(r, c), x);
  }

  lemma {:induction false} InSomeTable(tables: seq<seq<Row>>, x: Row) returns (i: nat)
    requires x in Flatten(tables)
    ensures i < |tables| && x in tables[i]
  {
    if x in tables[0] {
      i := 0;
    } else {
      i := InSomeTable(tables[1..], x);
      i := i + 1;
    }
  }

  lemma {:induction false} TableInUnion(tables: seq<seq<Row>>, i: nat, x: Row)
    requires i < |tables| && x in tables[i]
    ensures x in Flatten(tables)
  {
    if i > 0 { TableInUnion(tables[1..], i - 1, x); }
  }

  /** Rows of a merged page are rows of the union after the cursor. */
  lemma {:induction false} MsPageMember(tables: seq<seq<Row>>, c: Option<Cursor>, limit: nat, x: Row)
    requires x in MergedPage(tables, c, limit, MsLe)
    ensures x in Flatten(tables) && After(x, c)
  {
    MsPage(tables, c, limit);
    var i := PagesOrigin(tables, c, limit, x);
    TargetPageMember(tables[i], c, limit, x);
    TableInUnion(tables, i, x);
  }

  lemma {:induction false} PageSize(tables: seq<seq<Row>>, c: Option<Cursor>, limit: nat, i: nat)
    requires i < |tables|
    ensures |TargetPage(tables[i], c, limit)| <= |TargetPages(tables, c, limit)|
  {
    if i > 0 { PageSize(tables[1..], c, limit, i - 1); }
  }

  /** A short merged page holds everything that was left. */
  lemma {:induction false} ShortPageIsRest(tables: seq<seq<Row>>, c: Option<Cursor>, limit: nat, x: Row)
    requires |MergedPage(tables, c, limit, MsLe)| < limit && x in Flatten(tables) && After(x, c)
    ensures x in MergedPage(tables, c, limit, MsLe)
  {
    MsPage(tables, c, limit);
    var i := InSomeTable(tables, x);
    PageSize(tables, c, limit, i);
    if x !in TargetPage(tables[i], c, limit) { HeldBack(tables[i], c, limit, x); }
    PagesHave(tables, c, limit, i, x);
  }

  /** `a` is in a later millisecond, or in the same one with a larger id. */
  predicate MsBefore(a: Row, b: Row) {
    || Millis(a.createdAt) > Millis(b.createdAt)
    || (Millis(a.createdAt) == Millis(b.createdAt) && a.id > b.id)
  }

  /** The order of the lossy comparator, in fields. */
  ghost predicate InMsOrder(rows: seq<Row>) {
    forall i, j :: 0 <= i < j < |rows| ==> MsBefore(rows[i], rows[j])
  }

  /** What a target sent and the page has no room for comes after the page's last row. */
  ghost predicate CutIsLater(tables: seq<seq<Row>>, c: Option<Cursor>, limit: nat, page: seq<Row>) {
    forall i, x :: 0 <= i < |tables| && x in TargetPage(tables[i], c, limit) && x !in page ==>
      |page| == limit && (limit > 0 ==> MsBefore(page[limit - 1], x))
  }

  lemma {:induction false} UniqueRowsDiffer(rows: seq<Row>, x: Row, y: Row)
    requires UniqueIds(rows) && x in rows && y in rows && x != y
    ensures x.id != y.id
  {
  }

  lemma {:induction false} MsPageOrder(tables: seq<seq<Row>>, c: Option<Cursor>, limit: nat, page: seq<Row>)
    requires UniqueIds(Flatten(tables)) && page == MergedPage(tables, c, limit, MsLe)
    ensures InMsOrder(page)
  {
    MsPage(tables, c, limit);
    MsPageDistinct(tables, c, limit);
    forall i, j | 0 <= i < j < |page| ensures MsBefore(page[i], page[j]) {
      MsPageMember(tables, c, limit, page[i]);
      MsPageMember(tables, c, limit, page[j]);
      UniqueRowsDiffer(Flatten(tables), page[i], page[j]);
      assert MsLe(page[i], page[j]);
    }
  }

  lemma {:induction false} MsCut(tables: seq<seq<Row>>, c: Option<Cursor>, limit: nat, page: seq<Row>, i: nat, x: Row)
    requires UniqueIds(Flatten(tables)) && page == MergedPage(tables, c, limit, MsLe)
    requires i < |tables| && x in TargetPage(tables[i], c, limit) && x !in page
    ensures |page| == limit && (limit > 0 ==> MsBefore(page[limit - 1], x))
  {
    MsPage(tables, c, limit);
    PagesHave(tables, c, limit, i, x);
    var s := Sort(TargetPages(tables, c, limit), MsLe);
    var k :| 0 <= k < |s| && s[k] == x;
    forall j | 0 <= j < |page| ensures s[j] != x { assert page[j] in page; }
    if limit > 0 {
      MsPageMember(tables, c, limit, page[limit - 1]);
      TargetPageMember(tables[i], c, limit, x);
      TableInUnion(tables, i, x);
      UniqueRowsDiffer(Flatten(tables), page[limit - 1], x);
      assert MsLe(s[limit - 1], s[k]);
    }
  }

  /**
   The rows of a read with the lossy comparator: rows of the union after the cursor, in
   its order, and anything left out is no newer than the last millisecond of a full page.
   */
  ghost predicate NewestByMillis(rows: seq<Row>, union: seq<Row>, c: Option<Cursor>, limit: nat) {
    && |rows| <= limit && InMsOrder(rows)
    && (forall x :: x in rows ==> x in union && After(x, c))
    && (forall x :: x in union && After(x, c) ==>
          x in rows || (|rows| == limit && (limit > 0 ==> Millis(x.createdAt) <= Millis(rows[limit - 1].createdAt))))
  }

  lemma {:induction false} MsMergeIsNewest(tables: seq<seq<Row>>, c: Option<Cursor>, limit: nat)
    requires UniqueIds(Flatten(tables))
    ensures var page := MergedPage(tables, c, limit, MsLe);
      NewestByMillis(page, Flatten(tables), c, limit) && CutIsLater(tables, c, limit, page)
  {
    var page := MergedPage(tables, c, limit, MsLe);
    MsPageOrder(tables, c, limit, page);
    forall x | x in page ensures x in Flatten(tables) && After(x, c) { MsPageMember(tables, c, limit, x); }
    forall x | x in Flatten(tables) && After(x, c) && x !in page
      ensures |page| == limit && (limit > 0 ==> Millis(x.createdAt) <= Millis(page[limit - 1].createdAt))
    {
      if |page| < limit { ShortPageIsRest(tables, c, limit, x); }
      if limit > 0 {
        var i := InSomeTable(tables, x);
        LeftOutIsOld(tables, c, limit, i, x);
      }
    }
    forall i, x | 0 <= i < |tables| && x in TargetPage(tables[i], c, limit) && x !in page
      ensures |page| == limit && (limit > 0 ==> MsBefore(page[limit - 1], x))
    {
      MsCut(tables, c, limit, page, i, x);
    }
  }

  /**
   A read that claims success saw every leg and holds the first rows of the whole
   union; a partial one holds the first rows of the legs that answered; a failed
   read under `All` holds nothing. With the lossy comparator "first" is by millisecond,
   then by id.
   */
  lemma {:induction false} FanoutIsHonest(legs: seq<LegRun>, c: Option<Cursor>, limit: nat, policy: Policy, exact: bool)
    requires UniqueIds(Flatten(AnsweredTables(legs)))
    ensures var r, union := Fanout(legs, c, limit, policy, exact), Flatten(AnsweredTables(legs));
      && (r.ok <==> forall i :: 0 <= i < |legs| ==> legs[i].Answered?)
      && (r.partial <==> policy.Settled? && !r.ok && exists i :: 0 <= i < |legs| && legs[i].Answered?)
      && ((policy.Settled? || r.ok) && exact ==> r.rows == Take(Matching(Sort(union, ExactLe), c), limit))
      && ((policy.Settled? || r.ok) && !exact ==>
            NewestByMillis(r.rows, union, c, limit) && CutIsLater(AnsweredTables(legs), c, limit, r.rows))
      && (policy.All? && !r.ok ==> r.rows == [])
  {
    AnsweredCount(legs);
    MergeIsExact(AnsweredTables(legs), c, limit);
    MsMergeIsNewest(AnsweredTables(legs), c, limit);
  }

  /** No row of a page occurs in it twice. */
  lemma {:induction false} MsPageDistinct(tables: seq<seq<Row>>, c: Option<Cursor>, limit: nat)
    requires UniqueIds(Flatten(tables))
    ensures Distinct(MergedPage(tables, c, limit, MsLe))
  {
    var pages := TargetPages(tables, c, limit);
    var s := Sort(pages, MsLe);
    var page := Take(s, limit);
    SortPermutes(pages, MsLe);
    PagesArePart(tables, c, limit);
    MatchingUnique(Flatten(tables), c, MsLe);
    forall i, j | 0 <= i < j < |page| ensures page[i] != page[j] {
      OccursTwice(s, i, j);
      assert s[i] in multiset(pages) && s[i] in multiset(Matching(Flatten(tables), c));
    }
  }

  ghost predicate Distinct(rows: seq<Row>) {
    forall i, j :: 0 <= i < j < |rows| ==> rows[i] != rows[j]
  }

  lemma {:induction false} MsCursorMovesOn(last: Row, c: Option<Cursor>, x: Row)
    requires After(last, c) && After(x, Some(MsCursor(last)))
    ensures After(x, c)
  {
  }

  /** A page that ended after `ends[j]` rows put `x` out of reach, and none of its rows or the earlier ones is `x`. */
  predicate MsLostAt(rows: seq<Row>, ends: seq<nat>, j: nat, x: Row) {
    j < |ends| && 0 < ends[j] <= |rows| && MsLostAfter(rows[ends[j] - 1], x) && x !in rows[..ends[j]]
  }

  ghost predicate MsLost(rows: seq<Row>, ends: seq<nat>, x: Row) {
    exists j: nat :: MsLostAt(rows, ends, j, x)
  }

  ghost predicate EndsWithin(rows: seq<Row>, ends: seq<nat>) {
    forall j :: 0 <= j < |ends| ==> 0 < ends[j] <= |rows|
  }

  /** Between pages: what was returned is out of reach, and what else is out of reach was lost at a page's end. */
  ghost predicate MsPassed(tables: seq<seq<Row>>, c: Option<Cursor>, rows: seq<Row>, ends: seq<nat>) {
    && Distinct(rows) && EndsWithin(rows, ends)
    && (forall x :: x in rows ==> x in Flatten(tables) && !After(x, c))
    && (forall x :: x in Flatten(tables) ==> (MsLost(rows, ends, x) <==> x !in rows && !After(x, c)))
  }

  lemma {:induction false} MsPageJoins(tables: seq<seq<Row>>, c: Option<Cursor>, rows: seq<Row>, limit: nat)
    requires UniqueIds(Flatten(tables)) && Distinct(rows) && forall x :: x in rows ==> !After(x, c)
    ensures Distinct(rows + MergedPage(tables, c, limit, MsLe))
  {
    var page := MergedPage(tables, c, limit, MsLe);
    MsPageDistinct(tables, c, limit);
    var more := rows + page;
    forall i, j | 0 <= i < j < |more| ensures more[i] != more[j] {
      if i < |rows| <= j {
        assert more[i] in rows && more[j] in page;
        MsPageMember(tables, c, limit, more[j]);
      }
    }
  }

  /** More rows do not change what the earlier pages lost. */
  lemma {:induction false} MsLostStays(rows: seq<Row>, page: seq<Row>, ends: seq<nat>, x: Row)
    requires EndsWithin(rows, ends)
    ensures MsLost(rows + page, ends, x) <==> MsLost(rows, ends, x)
  {
    forall j: nat | j < |ends| ensures MsLostAt(rows + page, ends, j, x) <==> MsLostAt(rows, ends, j, x) {
      assert (rows + page)[..ends[j]] == rows[..ends[j]];
    }
  }

  lemma {:induction false} MsLostExtends(rows: seq<Row>, ends: seq<nat>, x: Row)
    requires rows != []
    ensures MsLost(rows, ends + [|rows|], x) <==> MsLost(rows, ends, x) || (MsLostAfter(rows[|rows| - 1], x) && x !in rows)
  {
    var more := ends + [|rows|];
    assert rows[..|rows|] == rows;
    forall j: nat | j < |ends| ensures MsLostAt(rows, more, j, x) <==> MsLostAt(rows, ends, j, x) {}
    assert MsLostAt(rows, more, |ends|, x) <==> MsLostAfter(rows[|rows| - 1], x) && x !in rows;
  }

  /** The cursor is the last row's. */
  ghost predicate ContinuesFrom(rows: seq<Row>, c: Option<Cursor>) {
    c == if rows == [] then None else Some(MsCursor(rows[|rows| - 1]))
  }

  /** Whatever the next page holds comes later than all the rows so far. */
  lemma {:induction false} PagesInOrder(tables: seq<seq<Row>>, c: Option<Cursor>, rows: seq<Row>, limit: nat, page: seq<Row>)
    requires UniqueIds(Flatten(tables)) && InMsOrder(rows) && ContinuesFrom(rows, c)
    requires page == MergedPage(tables, c, limit, MsLe)
    ensures InMsOrder(rows + page)
  {
    MsPageOrder(tables, c, limit, page);
    var more := rows + page;
    forall i, j | 0 <= i < j < |more| ensures MsBefore(more[i], more[j]) {
      if i < |rows| <= j {
        var last := rows[|rows| - 1];
        assert more[j] in page;
        MsPageMember(tables, c, limit, more[j]);
        AfterIsLater(last, more[j]);
        if i < |rows| - 1 { assert MsBefore(rows[i], last); }
      }
    }
  }

  lemma {:induction false} AfterIsLater(last: Row, x: Row)
    requires After(x, Some(MsCursor(last)))
    ensures MsBefore(last, x)
  {
  }

  /** A full page: for each row of the union, being lost is still being neither returned nor within reach. */
  lemma {:induction false} MsFullPageLoses(tables: seq<seq<Row>>, c: Option<Cursor>, rows: seq<Row>, ends: seq<nat>,
                                           limit: nat,
                                           page: seq<Row>, last: Row, x: Row)
    requires limit >= 1 && MsPassed(tables, c, rows, ends) && x in Flatten(tables)
    requires page == MergedPage(tables, c, limit, MsLe) && |page| == limit && last == page[limit - 1]
    ensures MsLost(rows + page, ends + [|rows + page|], x) <==> x !in rows + page && !After(x, Some(MsCursor(last)))
  {
    MsLostStays(rows, page, ends, x);
    MsLostExtends(rows + page, ends, x);
    MsPageMember(tables, c, limit, last);
    if x in page { MsPageMember(tables, c, limit, x); }
    if After(x, Some(MsCursor(last))) { MsCursorMovesOn(last, c, x); }
    if After(x, c) && x !in page {
      var i := InSomeTable(tables, x);
      MsCompareLoss(tables, c, limit, i, x);
    }
  }

  lemma {:induction false} MsFullPage(tables: seq<seq<Row>>, c: Option<Cursor>, rows: seq<Row>, ends: seq<nat>,
                                      limit: nat,
                                      page: seq<Row>, last: Row)
    requires limit >= 1 && UniqueIds(Flatten(tables)) && MsPassed(tables, c, rows, ends)
    requires page == MergedPage(tables, c, limit, MsLe) && |page| == limit && last == page[limit - 1]
    ensures MsPassed(tables, Some(MsCursor(last)), rows + page, ends + [|rows + page|])
  {
    var next := Some(MsCursor(last));
    MsPageJoins(tables, c, rows, limit);
    MsPageMember(tables, c, limit, last);
    forall x | x in rows + page ensures x in Flatten(tables) && !After(x, next) {
      if x in page {
        MsPageMember(tables, c, limit, x);
        MsCompareNeverRepeats(tables, c, limit, x);
      } else if After(x, next) {
        MsCursorMovesOn(last, c, x);
      }
    }
    forall x | x in Flatten(tables)
      ensures MsLost(rows + page, ends + [|rows + page|], x) <==> x !in rows + page && !After(x, next)
    {
      MsFullPageLoses(tables, c, rows, ends, limit, page, last, x);
    }
  }

  lemma {:induction false} MsShortPage(tables: seq<seq<Row>>, c: Option<Cursor>, rows: seq<Row>, ends: seq<nat>,
                                       limit: nat, page: seq<Row>)
    requires UniqueIds(Flatten(tables)) && MsPassed(tables, c, rows, ends)
    requires page == MergedPage(tables, c, limit, MsLe) && |page| < limit
    ensures Distinct(rows + page) && (forall x :: x in rows + page ==> x in Flatten(tables))
    ensures forall x :: x in Flatten(tables) ==> (x !in rows + page <==> MsLost(rows + page, ends, x))
  {
    MsPageJoins(tables, c, rows, limit);
    forall x | x in page ensures x in Flatten(tables) && After(x, c) { MsPageMember(tables, c, limit, x); }
    forall x | x in Flatten(tables) ensures x !in rows + page <==> MsLost(rows + page, ends, x) {
      MsLostStays(rows, page, ends, x);
      if After(x, c) { ShortPageIsRest(tables, c, limit, x); }
    }
  }

  lemma {:induction false} AtPageEndsMore(ends: seq<nat>, limit: nat, n: nat)
    requires AtPageEnds(ends, limit) && n == (|ends| + 1) * limit
    ensures AtPageEnds(ends + [n], limit)
  {
    var more := ends + [n];
    forall j | 0 <= j < |more| ensures more[j] == (j + 1) * limit {
      if j < |ends| { assert more[j] == ends[j]; }
    }
  }

  /** Between two pages of a walk with the millisecond comparator and cursor. */
  ghost predicate MsBetween(tables: seq<seq<Row>>, c: Option<Cursor>, rows: seq<Row>, ends: seq<nat>) {
    MsPassed(tables, c, rows, ends) && InMsOrder(rows) && ContinuesFrom(rows, c)
  }

  /** What such a walk has returned. */
  ghost predicate MsWalked(tables: seq<seq<Row>>, rows: seq<Row>, ends: seq<nat>, exhausted: bool) {
    && InMsOrder(rows) && (forall x :: x in rows ==> x in Flatten(tables) && !MsLost(rows, ends, x))
    && (exhausted ==> forall x :: x in Flatten(tables) ==> (x !in rows <==> MsLost(rows, ends, x)))
  }

  lemma {:induction false} MsStarts(tables: seq<seq<Row>>)
    ensures MsBetween(tables, None, [], [])
  {
  }

  lemma {:induction false} MsGoesOn(tables: seq<seq<Row>>, c: Option<Cursor>, rows: seq<Row>, ends: seq<nat>, limit: nat,
                                    page: seq<Row>, last: Row)
    requires limit >= 1 && UniqueIds(Flatten(tables)) && MsBetween(tables, c, rows, ends)
    requires page == MergedPage(tables, c, limit, MsLe) && |page| == limit && last == page[|page| - 1]
    ensures MsBetween(tables, Some(MsCursor(last)), rows + page, ends + [|rows + page|])
  {
    MsFullPage(tables, c, rows, ends, limit, page, last);
    PagesInOrder(tables, c, rows, limit, page);
  }

  lemma {:induction false} MsExhausts(tables: seq<seq<Row>>, c: Option<Cursor>, rows: seq<Row>, ends: seq<nat>, limit: nat,
                                      page: seq<Row>)
    requires UniqueIds(Flatten(tables)) && MsBetween(tables, c, rows, ends)
    requires page == MergedPage(tables, c, limit, MsLe) && |page| < limit
    ensures MsWalked(tables, rows + page, ends, true)
  {
    MsShortPage(tables, c, rows, ends, limit, page);
    PagesInOrder(tables, c, rows, limit, page);
  }

  /**
   Walking with the millisecond comparator and cursor lists rows by millisecond and then
   by id, none twice and none it has lost, and on exhaustion the missing rows are exactly those lost at a page's end.
   */
  method WalkMs(tables: seq<seq<Row>>, limit: nat, cap: nat, fails: nat -> bool)
    returns (rows: seq<Row>, ends: seq<nat>, pages: nat, end: End)
    requires limit >= 1 && UniqueIds(Flatten(tables))
    ensures EndsAt(end, pages, cap, fails)
    ensures MsWalked(tables, rows, ends, end.Exhausted?)
    ensures AtPageEnds(ends, limit) && |ends| == FullPages(end, pages) && RowCount(end, |rows|, pages, limit)
  {
    rows, ends, pages := [], [], 0;
    var cursor: Option<Cursor> := None;
    ghost var full: nat := 0;
    MsStarts(tables);
    while pages < cap
      invariant pages <= cap && NoneFailed(fails, pages) && MsBetween(tables, cursor, rows, ends)
      invariant |rows| == full == pages * limit
      invariant AtPageEnds(ends, limit) && |ends| == pages
    {
      if fails(pages) { return rows, ends, pages, Errored; }
      NoneFailedMore(fails, pages);
      var page := MergedPage(tables, cursor, limit, MsLe);
      Multiply(pages, limit);
      pages, full := pages + 1, full + limit;
      if |page| < limit {
        MsExhausts(tables, cursor, rows, ends, limit, page);
        return rows + page, ends, pages, Exhausted;
      }
      MsGoesOn(tables, cursor, rows, ends, limit, page, page[|page| - 1]);
      AtPageEndsMore(ends, limit, |rows + page|);
      rows := rows + page;
      cursor, ends := Some(MsCursor(page[|page| - 1])), ends + [|rows|];
    }
    return rows, ends, pages, Capped;
  }
}
