/**
 Reading the routing log back: the `history` command's capped queries, the merge of its two
 per-side pages, and paging with the `--after` cursor.
 */
module ClaimHistory {
  import opened Prelude
  import opened ClaimRegistry
  import C = ClaimRuns
  import opened Sorting

  /** The WHERE clauses the command uses, and the single one its two-query form stands for. */
  datatype Where =
    | ClaimIs(claim: Claim)
    | OldTenantIs(tenant: TenantId)
    | NewTenantIs(tenant: TenantId)
    | EitherTenantIs(tenant: TenantId)

  predicate Holds(w: Where, after: Option<nat>, e: Event) {
    && (after.Some? ==> e.seqNo > after.value)
    && match w
       case ClaimIs(claim) => e.claim == claim
       case OldTenantIs(tenant) => e.oldTenant == Some(tenant)
       case NewTenantIs(tenant) => e.newTenant == Some(tenant)
       case EitherTenantIs(tenant) => e.oldTenant == Some(tenant) || e.newTenant == Some(tenant)
  }

  predicate Earlier(a: Event, b: Event) {
    a.seqNo < b.seqNo
  }

  function Filter(log: seq<Event>, w: Where, after: Option<nat>): seq<Event> {
    if log == [] then [] else (if Holds(w, after, log[0]) then [log[0]] else []) + Filter(log[1..], w, after)
  }

  /** Every matching event beyond the cursor, in order. */
  function Matching(log: seq<Event>, w: Where, after: Option<nat>): seq<Event> {
    Sort(Earlier, Filter(log, w, after))
  }

  /** WHERE w AND seq > after ORDER BY seq ASC LIMIT take. */
  function Query(log: seq<Event>, w: Where, after: Option<nat>, take: nat): seq<Event> {
    Take(Matching(log, w, after), take)
  }

  /** `--domain` names one claim, `--tenant` every event that names the tenant on either side. */
  datatype Selector = ByClaim(claim: Claim) | ByTenant(tenant: TenantId)

  function WhereOf(selector: Selector): Where {
    match selector
    case ByClaim(claim) => ClaimIs(claim)
    case ByTenant(tenant) => EitherTenantIs(tenant)
  }

  // ----- the merge --------------------------------------------------------------------------------

  /** The values of a map built from (seq, row) pairs in order: first position, last value. */
  function BySeq(rows: seq<Event>): seq<Event> {
    if rows == [] then []
    else
      var done := BySeq(rows[..|rows| - 1]);
      var row := rows[|rows| - 1];
      var i := Position(done, row.seqNo);
      if i < |done| then done[i := row] else done + [row]
  }

  function Position(rows: seq<Event>, seqNo: nat): (i: nat)
    ensures i <= |rows|
    ensures i < |rows| ==> rows[i].seqNo == seqNo
    ensures forall k :: 0 <= k < i ==> rows[k].seqNo != seqNo
  {
    if rows == [] || rows[0].seqNo == seqNo then 0 else 1 + Position(rows[1..], seqNo)
  }

  /** Two index-ordered pages, one per side, merged and cut again. */
  function MergedPages(log: seq<Event>, tenant: TenantId, after: Option<nat>, take: nat): seq<Event> {
    var asOld := Query(log, OldTenantIs(tenant), after, take);
    var asNew := Query(log, NewTenantIs(tenant), after, take);
    Take(Sort(Earlier, BySeq(asOld + asNew)), take)
  }

  function Fetch(log: seq<Event>, selector: Selector, after: Option<nat>, take: nat): seq<Event> {
    match selector
    case ByClaim(claim) => Query(log, ClaimIs(claim), after, take)
    case ByTenant(tenant) => MergedPages(log, tenant, after, take)
  }

  /** What one call prints, and whether it says that more events exist. */
  datatype Page = Page(rows: seq<Event>, truncated: bool)

  function History(log: seq<Event>, selector: Selector, after: Option<nat>, rowCap: nat): Page {
    var fetched := Fetch(log, selector, after, rowCap + 1);
    var truncated := |fetched| > rowCap;
    Page(if truncated then fetched[..rowCap] else fetched, truncated)
  }

  /** The table's unique constraint on seq. */
  ghost predicate UniqueSeq(log: seq<Event>) {
    forall i, j :: 0 <= i < j < |log| ==> log[i].seqNo != log[j].seqNo
  }

  // ----- the merge is exact -------------------------------------------------------------------------

  lemma {:induction false} FilterElements(log: seq<Event>, w: Where, after: Option<nat>)
    ensures forall e :: e in Elements(Filter(log, w, after)) <==> e in Elements(log) && Holds(w, after, e)
  {
    if log != [] {
      FilterElements(log[1..], w, after);
      HeadAndTail(log);
    }
  }

  lemma {:induction false} FilterUnique(log: seq<Event>, w: Where, after: Option<nat>)
    requires UniqueSeq(log)
    ensures UniqueSeq(Filter(log, w, after))
  {
    if log != [] {
      FilterUnique(log[1..], w, after);
      FilterElements(log[1..], w, after);
      var rest := Filter(log[1..], w, after);
      forall k | 0 <= k < |rest|
        ensures rest[k].seqNo != log[0].seqNo
      {
        assert rest[k] in Elements(rest);
        var m :| 0 <= m < |log[1..]| && log[1..][m] == rest[k];
        assert log[m + 1] == rest[k];
      }
    }
  }

  lemma {:induction false} UniqueSeqOrders(log: seq<Event>)
    requires UniqueSeq(log)
    ensures Orders(Earlier, Elements(log)) && Distinct(log)
  {
    forall x, y | x in Elements(log) && y in Elements(log) && x != y
      ensures Earlier(x, y) || Earlier(y, x)
    {
      var i :| 0 <= i < |log| && log[i] == x;
      var j :| 0 <= j < |log| && log[j] == y;
    }
  }

  /** Matching lists the events asked for, once each, in order. */
  lemma {:induction false} MatchingIsSortedFilter(log: seq<Event>, w: Where, after: Option<nat>)
    requires UniqueSeq(log)
    ensures var r := Matching(log, w, after);
            && Ascending(Earlier, r)
            && (forall e :: e in Elements(r) <==> e in Elements(log) && Holds(w, after, e))
            && Elements(r) <= Elements(log)
            && Orders(Earlier, Elements(r))
  {
    FilterUnique(log, w, after);
    FilterElements(log, w, after);
    UniqueSeqOrders(Filter(log, w, after));
    SortAscends(Earlier, Filter(log, w, after));
    SortElements(Earlier, Filter(log, w, after));
  }

  lemma {:induction false} BySeqElements(rows: seq<Event>)
    requires forall x, y :: x in Elements(rows) && y in Elements(rows) && x.seqNo == y.seqNo ==> x == y
    ensures Elements(BySeq(rows)) == Elements(rows)
    ensures UniqueSeq(BySeq(rows))
    decreases |rows|
  {
    if rows != [] {
      var init := rows[..|rows| - 1];
      var row := rows[|rows| - 1];
      assert Elements(rows) == Elements(init) + {row} by { assert rows == init + [row]; }
      BySeqElements(init);
      var done := BySeq(init);
      var i := Position(done, row.seqNo);
      if i < |done| {
        assert done[i] in Elements(done);
        assert done[i := row] == done;
      } else {
        assert Elements(done + [row]) == Elements(done) + {row};
      }
    }
  }

  lemma {:induction false} TakeElements(s: seq<Event>, n: nat)
    ensures Elements(Take(s, n)) <= Elements(s)
    ensures Ascending(Earlier, s) ==> Ascending(Earlier, Take(s, n))
  {
    forall e | e in Elements(Take(s, n))
      ensures e in Elements(s)
    {
      var k :| 0 <= k < |Take(s, n)| && Take(s, n)[k] == e;
      assert s[k] == e;
    }
  }

  /** Among the first `take` of the whole, each element is among the first `take` of any part it is in. */
  lemma {:induction false} FirstOfWholeIsFirstOfPart(part: seq<Event>, whole: seq<Event>, k: nat, take: nat)
    requires Ascending(Earlier, part) && Ascending(Earlier, whole) && Orders(Earlier, Elements(whole))
    requires Elements(part) <= Elements(whole) && k < |whole| && k < take && whole[k] in Elements(part)
    ensures whole[k] in Elements(Take(part, take))
  {
    var j :| 0 <= j < |part| && part[j] == whole[k];
    PartIndex(Earlier, part, whole, j, k);
    assert Take(part, take)[j] == whole[k];
  }

  /**
   The two capped pages, deduplicated by seq, sorted and cut again, are the first `take` rows of the
   single ordered query "old or new tenant matches".
   */
  lemma {:induction false} MergeIsExact(log: seq<Event>, tenant: TenantId, after: Option<nat>, take: nat)
    requires UniqueSeq(log)
    ensures MergedPages(log, tenant, after, take) == Query(log, EitherTenantIs(tenant), after, take)
  {
    var a := Matching(log, OldTenantIs(tenant), after);
    var b := Matching(log, NewTenantIs(tenant), after);
    var whole := Matching(log, EitherTenantIs(tenant), after);
    MatchingIsSortedFilter(log, OldTenantIs(tenant), after);
    MatchingIsSortedFilter(log, NewTenantIs(tenant), after);
    MatchingIsSortedFilter(log, EitherTenantIs(tenant), after);
    MergeOfParts(a, b, whole, take);
  }

  lemma {:induction false} MergeOfParts(a: seq<Event>, b: seq<Event>, whole: seq<Event>, take: nat)
    requires Ascending(Earlier, a) && Ascending(Earlier, b) && Ascending(Earlier, whole)
    requires Orders(Earlier, Elements(whole)) && Elements(whole) == Elements(a) + Elements(b)
    ensures Take(Sort(Earlier, BySeq(Take(a, take) + Take(b, take))), take) == Take(whole, take)
  {
    var pages := Take(a, take) + Take(b, take);
    TakeElements(a, take);
    TakeElements(b, take);
    assert Elements(pages) == Elements(Take(a, take)) + Elements(Take(b, take));
    assert Elements(pages) <= Elements(whole);
    BySeqElements(pages);
    var distinct := BySeq(pages);
    UniqueSeqOrders(distinct);
    SortAscends(Earlier, distinct);
    SortElements(Earlier, distinct);
    var merged := Sort(Earlier, distinct);
    var m := |Take(whole, take)|;
    forall e | e in Elements(whole[..m])
      ensures e in Elements(merged)
    {
      var k :| 0 <= k < m && whole[..m][k] == e;
      assert whole[k] == e && e in Elements(whole);
      if e in Elements(a) {
        FirstOfWholeIsFirstOfPart(a, whole, k, take);
      } else {
        FirstOfWholeIsFirstOfPart(b, whole, k, take);
      }
    }
    SamePrefix(Earlier, merged, whole, m);
    if |whole| <= take {
      AscendingIsUnique(Earlier, merged, whole) by {
        assert whole[..m] == whole;
        assert Elements(merged) == Elements(whole);
      }
    }
  }

  /** A call prints the first rows there are, and says it was capped exactly when there are more. */
  lemma {:induction false} HistoryIsExact(log: seq<Event>, selector: Selector, after: Option<nat>, rowCap: nat)
    requires UniqueSeq(log)
    ensures var all := Matching(log, WhereOf(selector), after);
            var page := History(log, selector, after, rowCap);
            && page.rows == Take(all, rowCap)
            && (page.truncated <==> |all| > rowCap)
  {
    FetchIsQuery(log, selector, after, rowCap + 1);
    OneMoreThanTheCap(Matching(log, WhereOf(selector), after), Fetch(log, selector, after, rowCap + 1), rowCap);
  }

  lemma {:induction false} FetchIsQuery(log: seq<Event>, selector: Selector, after: Option<nat>, take: nat)
    requires UniqueSeq(log)
    ensures Fetch(log, selector, after, take) == Take(Matching(log, WhereOf(selector), after), take)
  {
    if selector.ByTenant? {
      MergeIsExact(log, selector.tenant, after, take);
    }
  }

  /** Reading one row more than the cap tells whether there are more. */
  lemma {:induction false} OneMoreThanTheCap(all: seq<Event>, fetched: seq<Event>, rowCap: nat)
    requires fetched == Take(all, rowCap + 1)
    ensures |fetched| > rowCap <==> |all| > rowCap
    ensures Take(all, rowCap) == if |fetched| > rowCap then fetched[..rowCap] else fetched
  {
  }

  // ----- following the cursor -----------------------------------------------------------------------

  /** The cursor a capped page prints: the seq of its last row. */
  function LastSeq(rows: seq<Event>): nat
    requires rows != []
  {
    rows[|rows| - 1].seqNo
  }

  /** What is left beyond the last row of a page is what the page left out. */
  lemma {:induction false} CursorContinues(log: seq<Event>, w: Where, after: Option<nat>, n: nat)
    requires UniqueSeq(log) && 0 < n <= |Matching(log, w, after)|
    ensures Matching(log, w, Some(LastSeq(Matching(log, w, after)[..n]))) == Matching(log, w, after)[n..]
  {
    var all := Matching(log, w, after);
    var cursor := Some(LastSeq(all[..n]));
    var rest := Matching(log, w, cursor);
    MatchingIsSortedFilter(log, w, after);
    MatchingIsSortedFilter(log, w, cursor);
    assert all[n - 1] in Elements(all);
    forall e
      ensures e in Elements(all[n..]) <==> e in Elements(rest)
    {
      SuffixMembers(Earlier, all, n, e);
      assert e in Elements(all) <==> e in all;
    }
    AscendingIsUnique(Earlier, all[n..], rest);
  }

  /** Re-run with `--after` until a result is not capped. */
  function Follow(log: seq<Event>, selector: Selector, after: Option<nat>, rowCap: nat): seq<Event>
    requires UniqueSeq(log) && rowCap > 0
    decreases |Matching(log, WhereOf(selector), after)|
  {
    HistoryIsExact(log, selector, after, rowCap);
    var page := History(log, selector, after, rowCap);
    if !page.truncated then page.rows
    else
      CursorContinues(log, WhereOf(selector), after, rowCap);
      page.rows + Follow(log, selector, Some(LastSeq(page.rows)), rowCap)
  }

  /** Paging returns every matching event exactly once, in order. */
  lemma {:induction false} FollowReadsEverything(log: seq<Event>, selector: Selector, after: Option<nat>, rowCap: nat)
    requires UniqueSeq(log) && rowCap > 0
    ensures Follow(log, selector, after, rowCap) == Matching(log, WhereOf(selector), after)
    decreases |Matching(log, WhereOf(selector), after)|
  {
    HistoryIsExact(log, selector, after, rowCap);
    var page := History(log, selector, after, rowCap);
    if page.truncated {
      var all := Matching(log, WhereOf(selector), after);
      CursorContinues(log, WhereOf(selector), after, rowCap);
      FollowReadsEverything(log, selector, Some(LastSeq(page.rows)), rowCap);
      Halves(all, rowCap);
    }
  }

  lemma {:induction false} Halves(all: seq<Event>, n: nat)
    requires n <= |all|
    ensures all[..n] + all[n..] == all
  {
  }

  // ----- paging while the log grows --------------------------------------------------------------------

  /** `later` is `log` with events appended, all of them later. */
  ghost predicate Grows(log: seq<Event>, later: seq<Event>) {
    && log <= later
    && forall i, j :: 0 <= i < |log| <= j < |later| ==> Earlier(log[i], later[j])
  }

  /** Successive states of the log, one per page read. */
  ghost predicate GrowingLogs(logs: seq<seq<Event>>) {
    && (forall i :: 0 <= i < |logs| ==> UniqueSeq(logs[i]))
    && (forall i, j :: 0 <= i < j < |logs| ==> Grows(logs[i], logs[j]))
  }

  /** Page k is read from state k of the log; paging stops at the first page that is not capped. */
  function FollowGrowing(logs: seq<seq<Event>>, selector: Selector, after: Option<nat>, rowCap: nat): seq<Event>
    requires rowCap > 0
    decreases |logs|
  {
    if logs == [] then []
    else
      var page := History(logs[0], selector, after, rowCap);
      if page.truncated then page.rows + FollowGrowing(logs[1..], selector, Some(LastSeq(page.rows)), rowCap)
      else page.rows
  }

  /** Appending later events only extends what matches. */
  lemma {:induction false} GrowthExtendsMatching(log: seq<Event>, later: seq<Event>, w: Where, after: Option<nat>)
    requires UniqueSeq(log) && UniqueSeq(later) && Grows(log, later)
    ensures Matching(log, w, after) <= Matching(later, w, after)
  {
    var more := later[|log|..];
    assert later == log + more;
    assert Elements(later) == Elements(log) + Elements(more);
    var a := Matching(log, w, after);
    var b := Matching(more, w, after);
    var whole := Matching(later, w, after);
    MatchingIsSortedFilter(log, w, after);
    MatchingIsSortedFilter(more, w, after);
    MatchingIsSortedFilter(later, w, after);
    assert Elements(a + b) == Elements(a) + Elements(b);
    forall x, y | x in Elements(a) && y in Elements(b)
      ensures Earlier(x, y)
    {
      assert x in Elements(log) && y in Elements(more);
      var i :| 0 <= i < |log| && log[i] == x;
      var j :| 0 <= j < |more| && more[j] == y;
      assert later[|log| + j] == y;
    }
    AscendingAppend(a, b);
    AscendingIsUnique(Earlier, a + b, whole);
  }

  lemma {:induction false} AscendingAppend(a: seq<Event>, b: seq<Event>)
    requires Ascending(Earlier, a) && Ascending(Earlier, b)
    requires forall x, y :: x in Elements(a) && y in Elements(b) ==> Earlier(x, y)
    ensures Ascending(Earlier, a + b)
  {
    var r := a + b;
    forall i, j | 0 <= i < j < |r|
      ensures Earlier(r[i], r[j])
    {
      if i < |a| <= j {
        assert a[i] in Elements(a) && b[j - |a|] in Elements(b);
      }
    }
  }

  /** The first page that is not capped, or the number of pages if every one is. */
  function StopsAt(logs: seq<seq<Event>>, selector: Selector, after: Option<nat>, rowCap: nat): (n: nat)
    requires rowCap > 0
    ensures n <= |logs|
    decreases |logs|
  {
    if logs == [] then 0
    else
      var page := History(logs[0], selector, after, rowCap);
      if page.truncated then 1 + StopsAt(logs[1..], selector, Some(LastSeq(page.rows)), rowCap) else 0
  }

  /** What paging has printed is the whole history as of the page it stopped at, or an initial part of it. */
  ghost predicate NoGaps(logs: seq<seq<Event>>, w: Where, after: Option<nat>, printed: seq<Event>, stop: nat)
    requires logs != [] && stop <= |logs|
  {
    if stop < |logs| then printed == Matching(logs[stop], w, after) else printed <= Matching(logs[|logs| - 1], w, after)
  }

  /**
   Events appended between pages neither hide nor repeat anything: if paging stops at an uncapped
   page, what was printed is the whole history as of that page; while every page is capped it is an
   initial part of the history as of the last one.
   */
  lemma {:induction false} FollowGrowingHasNoGaps(logs: seq<seq<Event>>, selector: Selector, after: Option<nat>, rowCap: nat)
    requires rowCap > 0 && logs != [] && GrowingLogs(logs)
    ensures NoGaps(logs, WhereOf(selector), after, FollowGrowing(logs, selector, after, rowCap), StopsAt(logs, selector, after, rowCap))
    decreases |logs|
  {
    if History(logs[0], selector, after, rowCap).truncated && |logs| > 1 {
      FirstPage(logs, selector, after, rowCap);
      GrowingTail(logs);
      FollowGrowingHasNoGaps(logs[1..], selector, Some(LastSeq(History(logs[0], selector, after, rowCap).rows)), rowCap);
      ThenTheRest(logs, selector, after, rowCap);
    } else {
      OnlyPage(logs, selector, after, rowCap);
    }
  }

  lemma {:induction false} ThenTheRest(logs: seq<seq<Event>>, selector: Selector, after: Option<nat>, rowCap: nat)
    requires rowCap > 0 && |logs| > 1 && GrowingLogs(logs)
    requires var page := History(logs[0], selector, after, rowCap);
             && page.truncated && page.rows != []
             && var cursor := Some(LastSeq(page.rows));
                NoGaps(logs[1..], WhereOf(selector), cursor, FollowGrowing(logs[1..], selector, cursor, rowCap),
                       StopsAt(logs[1..], selector, cursor, rowCap))
    ensures NoGaps(logs, WhereOf(selector), after, FollowGrowing(logs, selector, after, rowCap), StopsAt(logs, selector, after, rowCap))
  {
    var rows := History(logs[0], selector, after, rowCap).rows;
    var cursor := Some(LastSeq(rows));
    var stop := StopsAt(logs[1..], selector, cursor, rowCap);
    LaterPages(logs, if stop < |logs| - 1 then stop + 1 else |logs| - 1, selector, after, rowCap);
    OnePageMore(logs, WhereOf(selector), after, rows, FollowGrowing(logs[1..], selector, cursor, rowCap), stop);
    CappedPageFirst(logs, selector, after, rowCap);
  }

  lemma {:induction false} CappedPageFirst(logs: seq<seq<Event>>, selector: Selector, after: Option<nat>, rowCap: nat)
    requires rowCap > 0 && logs != [] && History(logs[0], selector, after, rowCap).truncated
    ensures var page := History(logs[0], selector, after, rowCap);
            var cursor := Some(LastSeq(page.rows));
            && FollowGrowing(logs, selector, after, rowCap) == page.rows + FollowGrowing(logs[1..], selector, cursor, rowCap)
            && StopsAt(logs, selector, after, rowCap) == StopsAt(logs[1..], selector, cursor, rowCap) + 1
  {
  }

  lemma {:induction false} OnlyPage(logs: seq<seq<Event>>, selector: Selector, after: Option<nat>, rowCap: nat)
    requires rowCap > 0 && logs != [] && GrowingLogs(logs)
    requires !History(logs[0], selector, after, rowCap).truncated || |logs| == 1
    ensures NoGaps(logs, WhereOf(selector), after, FollowGrowing(logs, selector, after, rowCap), StopsAt(logs, selector, after, rowCap))
  {
    FirstPage(logs, selector, after, rowCap);
    var page := History(logs[0], selector, after, rowCap);
    if page.truncated {
      CappedPageFirst(logs, selector, after, rowCap);
      assert logs[1..] == [];
    }
  }

  lemma {:induction false} OnePageMore(logs: seq<seq<Event>>, w: Where, after: Option<nat>, rows: seq<Event>, printed: seq<Event>, stop: nat)
    requires |logs| > 1 && stop <= |logs| - 1 && rows != []
    requires NoGaps(logs[1..], w, Some(LastSeq(rows)), printed, stop)
    requires var last := if stop < |logs| - 1 then stop + 1 else |logs| - 1;
             Matching(logs[last], w, after) == rows + Matching(logs[last], w, Some(LastSeq(rows)))
    ensures NoGaps(logs, w, after, rows + printed, stop + 1)
  {
    var last := if stop < |logs| - 1 then stop + 1 else |logs| - 1;
    assert logs[1..][last - 1] == logs[last];
    PageAndTail(rows, printed, Matching(logs[last], w, Some(LastSeq(rows))), Matching(logs[last], w, after));
  }

  /** A page and then all, or an initial part, of the rest. */
  lemma {:induction false} PageAndTail(rows: seq<Event>, printed: seq<Event>, rest: seq<Event>, all: seq<Event>)
    requires all == rows + rest
    ensures printed == rest ==> rows + printed == all
    ensures printed <= rest ==> rows + printed <= all
  {
  }

  lemma {:induction false} FirstPage(logs: seq<seq<Event>>, selector: Selector, after: Option<nat>, rowCap: nat)
    requires rowCap > 0 && logs != [] && GrowingLogs(logs)
    ensures var page := History(logs[0], selector, after, rowCap);
            var all := Matching(logs[0], WhereOf(selector), after);
            && page.rows <= all
            && (page.truncated ==> page.rows != [])
            && (!page.truncated ==> page.rows == all)
  {
    assert UniqueSeq(logs[0]);
    HistoryIsExact(logs[0], selector, after, rowCap);
  }

  lemma {:induction false} LaterPages(logs: seq<seq<Event>>, k: nat, selector: Selector, after: Option<nat>, rowCap: nat)
    requires rowCap > 0 && 0 < k < |logs| && GrowingLogs(logs)
    requires History(logs[0], selector, after, rowCap).truncated
    ensures var rows := History(logs[0], selector, after, rowCap).rows;
            rows != [] && Matching(logs[k], WhereOf(selector), after) == rows + Matching(logs[k], WhereOf(selector), Some(LastSeq(rows)))
  {
    assert UniqueSeq(logs[0]) && UniqueSeq(logs[k]) && Grows(logs[0], logs[k]);
    PageThenRest(logs[0], logs[k], selector, after, rowCap);
  }

  lemma {:induction false} GrowingTail(logs: seq<seq<Event>>)
    requires GrowingLogs(logs) && logs != []
    ensures GrowingLogs(logs[1..])
  {
    var rest := logs[1..];
    assert forall i :: 0 <= i < |rest| ==> rest[i] == logs[i + 1];
    forall i | 0 <= i < |rest|
      ensures UniqueSeq(rest[i])
    {
      assert UniqueSeq(logs[i + 1]);
    }
    forall i, j | 0 <= i < j < |rest|
      ensures Grows(rest[i], rest[j])
    {
      assert Grows(logs[i + 1], logs[j + 1]);
    }
  }

  /** A capped page followed by what the later log has beyond its cursor. */
  lemma {:induction false} PageThenRest(log: seq<Event>, later: seq<Event>, selector: Selector, after: Option<nat>, rowCap: nat)
    requires rowCap > 0 && UniqueSeq(log) && UniqueSeq(later) && Grows(log, later)
    requires History(log, selector, after, rowCap).truncated
    ensures var rows := History(log, selector, after, rowCap).rows;
            rows != [] && Matching(later, WhereOf(selector), after) == rows + Matching(later, WhereOf(selector), Some(LastSeq(rows)))
  {
    var w := WhereOf(selector);
    HistoryIsExact(log, selector, after, rowCap);
    GrowthExtendsMatching(log, later, w, after);
    CursorContinues(later, w, after, rowCap);
    assert Matching(later, w, after)[..rowCap] == Matching(log, w, after)[..rowCap];
  }

  // ----- paging between the steps of a registry run --------------------------------------------------------

  lemma {:induction false} PrefixGrows(log: seq<Event>, later: seq<Event>)
    requires SeqNumbersIncrease(later) && log <= later
    ensures UniqueSeq(log) && UniqueSeq(later) && Grows(log, later)
  {
    forall i | 0 <= i < |log|
      ensures log[i].seqNo == i + 1
    {
      assert log[i] == later[i];
    }
  }

  /** The log as each page finds it: `runs[i]` are the steps of all actors before page i is read. */
  function LogsAt(sys: C.System, runs: seq<seq<C.Step>>): (logs: seq<seq<Event>>)
    ensures |logs| == |runs|
    decreases |runs|
  {
    if runs == [] then []
    else
      var next := C.Run(sys, runs[0]);
      [next.db.events] + LogsAt(next, runs[1..])
  }

  lemma {:induction false} LogsExtend(base: map<Claim, Row>, sys: C.System, runs: seq<seq<C.Step>>, i: nat)
    requires C.Inv(base, sys) && i < |runs|
    ensures sys.db.events <= LogsAt(sys, runs)[i] && SeqNumbersIncrease(LogsAt(sys, runs)[i])
    decreases |runs|
  {
    var next := C.Run(sys, runs[0]);
    C.RunKeeps(base, sys, runs[0]);
    if i > 0 {
      LogsExtend(base, next, runs[1..], i - 1);
      assert LogsAt(sys, runs)[i] == LogsAt(next, runs[1..])[i - 1];
    }
  }

  lemma {:induction false} LaterLogExtends(base: map<Claim, Row>, sys: C.System, runs: seq<seq<C.Step>>, i: nat, j: nat)
    requires C.Inv(base, sys) && i < j < |runs|
    ensures LogsAt(sys, runs)[i] <= LogsAt(sys, runs)[j]
    decreases |runs|
  {
    var next := C.Run(sys, runs[0]);
    C.RunKeeps(base, sys, runs[0]);
    if i == 0 {
      LogsExtend(base, next, runs[1..], j - 1);
    } else {
      LaterLogExtends(base, next, runs[1..], i - 1, j - 1);
    }
    assert LogsAt(sys, runs)[1..] == LogsAt(next, runs[1..]);
  }

  /** Over every run of the registry the logs that successive pages find grow as paging asks. */
  lemma {:induction false} RegistryLogsGrow(base: map<Claim, Row>, sys: C.System, runs: seq<seq<C.Step>>)
    requires C.Inv(base, sys)
    ensures GrowingLogs(LogsAt(sys, runs))
  {
    var logs := LogsAt(sys, runs);
    forall i | 0 <= i < |logs|
      ensures UniqueSeq(logs[i])
    {
      LogsExtend(base, sys, runs, i);
      PrefixGrows(logs[i], logs[i]);
    }
    forall i, j | 0 <= i < j < |logs|
      ensures Grows(logs[i], logs[j])
    {
      LogsExtend(base, sys, runs, j);
      LaterLogExtends(base, sys, runs, i, j);
      PrefixGrows(logs[i], logs[j]);
    }
  }

  /**
   Paging while operators, sign-ins and deletions go on between the pages: if it stops at an
   uncapped page, what was printed is the whole history as of that page, and until then it is an
   initial part of the history as of the last page read.
   */
  lemma {:induction false} RegistryPagesHaveNoGaps(rows: map<Claim, Row>, tenants: set<TenantId>, nextRow: nat,
                                                   runs: seq<seq<C.Step>>, selector: Selector, after: Option<nat>, rowCap: nat)
    requires TablesOk(C.Opening(rows, tenants, nextRow).db) && runs != [] && rowCap > 0
    ensures var logs := LogsAt(C.Opening(rows, tenants, nextRow), runs);
            NoGaps(logs, WhereOf(selector), after, FollowGrowing(logs, selector, after, rowCap), StopsAt(logs, selector, after, rowCap))
  {
    var sys := C.Opening(rows, tenants, nextRow);
    C.RunKeeps(rows, sys, []);
    RegistryLogsGrow(rows, sys, runs);
    FollowGrowingHasNoGaps(LogsAt(sys, runs), selector, after, rowCap);
  }
}
