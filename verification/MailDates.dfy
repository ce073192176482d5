/** Listing mail in a date range: a coarse search by calendar date on the server, then an exact
    filter on each header, page by page, newest UID first. */
module MailDates {
  import opened Prelude

  /** Microseconds since the start of the year 1, UTC, and the last one a datetime can hold. */
  type Instant = int

  const DAY: int := 86_400_000_000
  const LAST_INSTANT: Instant := 3_652_059 * DAY - 1

  /** The Date header of a message: the moment and the zone offset it is written with. */
  datatype Header = Header(sent: Instant, offset: int)

  predicate ZoneWithinADay(h: Header) {
    -DAY <= h.offset <= DAY
  }

  /** The calendar day written in the header, which is all that SENTSINCE and SENTBEFORE look at
      (section 6.4.4 of RFC 3501). */
  function WrittenDay(h: Header): int {
    (h.sent + h.offset) / DAY
  }

  /** The exact filter; a header that cannot be read is in range only when there is no range. */
  predicate InBounds(h: Option<Header>, start: Option<Instant>, end: Option<Instant>) {
    || (start.None? && end.None?)
    || (h.Some?
        && (start.Some? ==> h.value.sent >= start.value)
        && (end.Some? ==> h.value.sent < end.value))
  }

  /** Ranges include their start and not their end, so adjacent ranges share no message and miss none. */
  lemma AdjacentRanges(h: Header, a: Option<Instant>, b: Instant, c: Option<Instant>)
    requires a.Some? ==> a.value <= b
    requires c.Some? ==> b <= c.value
    ensures !(InBounds(Some(h), a, Some(b)) && InBounds(Some(h), Some(b), c))
    ensures InBounds(Some(h), a, c) <==> InBounds(Some(h), a, Some(b)) || InBounds(Some(h), Some(b), c)
    ensures h.sent == b && c.None? ==> InBounds(Some(h), Some(b), c)
  {
  }

  /** A boundary moved by whole days, dropped when it leaves the calendar. */
  function PaddedDay(boundary: Option<Instant>, days: int): Option<int> {
    if boundary.None? then None
    else
      var moved := boundary.value + days * DAY;
      if 0 <= moved <= LAST_INSTANT then Some(moved / DAY) else None
  }

  /** The server's answer to the search criteria: one day early for the start, two days late for the end. */
  predicate ServerMatches(h: Header, start: Option<Instant>, end: Option<Instant>) {
    var since, before := PaddedDay(start, -1), PaddedDay(end, 2);
    && (since.Some? ==> WrittenDay(h) >= since.value)
    && (before.Some? ==> WrittenDay(h) < before.value)
  }

  /** The padded search misses nothing: every message in the exact range has a written date that
      the criteria accept, whatever its zone. */
  lemma PaddingMissesNothing(h: Header, start: Option<Instant>, end: Option<Instant>)
    requires ZoneWithinADay(h) && InBounds(Some(h), start, end)
    ensures ServerMatches(h, start, end)
  {
  }

  /** One day less on either side would miss messages: for any start, and for any end that is not
      midnight, some header in range is written just outside. */
  lemma PaddingIsNeeded(start: Instant, end: Instant) returns (early: Header, late: Header)
    ensures ZoneWithinADay(early) && InBounds(Some(early), Some(start), None) && WrittenDay(early) < start / DAY
    ensures end % DAY != 0 ==>
      ZoneWithinADay(late) && InBounds(Some(late), None, Some(end)) && WrittenDay(late) >= (end + DAY) / DAY
  {
    early := Header(start, -(start % DAY) - 1);
    late := Header(end - 1, DAY - end % DAY + 1);
    assert start + early.offset == (start / DAY) * DAY - 1;
    assert end - 1 + late.offset == (end / DAY) * DAY + DAY;
  }

  /** And the search is not much coarser than the range: whatever it answers was sent less than three
      days outside of it. */
  lemma PaddingIsSmall(h: Header, start: Instant, end: Instant)
    requires ZoneWithinADay(h) && DAY <= start && end <= LAST_INSTANT - 2 * DAY && 0 <= end
    requires ServerMatches(h, Some(start), Some(end)) && start <= LAST_INSTANT
    ensures start - 3 * DAY < h.sent < end + 3 * DAY
  {
  }

  // ---- lists ----

  type Uid = nat

  function Filter<T>(xs: seq<T>, keep: T -> bool): seq<T> {
    if xs == [] then []
    else if keep(xs[0]) then [xs[0]] + Filter(xs[1..], keep)
    else Filter(xs[1..], keep)
  }

  function Reverse<T>(xs: seq<T>): seq<T> {
    if xs == [] then [] else Reverse(xs[1..]) + [xs[0]]
  }

  lemma {:induction false} FilterAppend<T>(xs: seq<T>, ys: seq<T>, keep: T -> bool)
    ensures Filter(xs + ys, keep) == Filter(xs, keep) + Filter(ys, keep)
  {
    if xs == [] {
      assert xs + ys == ys;
    } else {
      FilterAppend(xs[1..], ys, keep);
      assert (xs + ys)[1..] == xs[1..] + ys;
    }
  }

  lemma {:induction false} FilterReverse<T>(xs: seq<T>, keep: T -> bool)
    ensures Filter(Reverse(xs), keep) == Reverse(Filter(xs, keep))
  {
    if xs != [] {
      FilterReverse(xs[1..], keep);
      FilterAppend(Reverse(xs[1..]), [xs[0]], keep);
      assert [xs[0]][1..] == [];
    }
  }

  /** Filtering first by something weaker makes no difference. */
  lemma {:induction false} FilterTwice<T>(xs: seq<T>, coarse: T -> bool, exact: T -> bool)
    requires forall x | x in xs :: exact(x) ==> coarse(x)
    ensures Filter(Filter(xs, coarse), exact) == Filter(xs, exact)
  {
    if xs != [] {
      FilterTwice(xs[1..], coarse, exact);
    }
  }

  // ---- the listing ----

  /** What the listing can learn about the folder: the Date header of each message (`None` if it
      does not parse), the messages the local index knows, and those whose header can be fetched
      one by one. */
  datatype Folder = Folder(dates: map<Uid, Option<Header>>, indexed: set<Uid>, fetchable: set<Uid>)

  function DateOf(f: Folder, uid: Uid): Option<Header> {
    if uid in f.dates then f.dates[uid] else None
  }

  /** The header of `uid` can be had: from the index, or alone from the server. */
  predicate Readable(f: Folder, uid: Uid) {
    uid in f.indexed || uid in f.fetchable
  }

  /** The page of headers starting at `offset`; the batch fetch may miss any of them. */
  method HeaderPage(f: Folder, page: seq<Uid>) returns (headers: map<Uid, Option<Header>>)
    ensures forall uid | uid in headers :: uid in page && uid in f.fetchable && headers[uid] == DateOf(f, uid)
  {
    var got: set<Uid> := *;
    headers := map uid | uid in got && uid in page && uid in f.fetchable :: DateOf(f, uid);
  }

  function Wanted(f: Folder, start: Option<Instant>, end: Option<Instant>): Uid -> bool {
    (uid: Uid) => Readable(f, uid) && InBounds(DateOf(f, uid), start, end)
  }

  function Limit(maxResults: int): (n: nat)
    ensures n >= 1 && (maxResults >= 1 ==> n == maxResults)
  {
    if maxResults == 0 then 20 else if maxResults < 1 then 1 else maxResults
  }

  lemma FilterNext<T>(xs: seq<T>, n: nat, keep: T -> bool)
    requires n < |xs|
    ensures Filter(xs[..n + 1], keep) == Filter(xs[..n], keep) + if keep(xs[n]) then [xs[n]] else []
  {
    assert xs[..n + 1] == xs[..n] + [xs[n]];
    FilterAppend(xs[..n], [xs[n]], keep);
    assert [xs[n]][1..] == [];
  }

  /** Having `n` hits, or having looked at everything, is having the first `n` hits of all. */
  lemma FilterPrefix<T>(xs: seq<T>, k: nat, n: nat, keep: T -> bool)
    requires k <= |xs| && |Filter(xs[..k], keep)| <= n
    requires k == |xs| || |Filter(xs[..k], keep)| == n
    ensures Filter(xs[..k], keep) == FirstN(Filter(xs, keep), n)
  {
    assert xs == xs[..k] + xs[k..];
    FilterAppend(xs[..k], xs[k..], keep);
  }

  /** Whether one message is listed, from the index row, the page or a fetch of its own. */
  method Accept(f: Folder, uid: Uid, page: map<Uid, Option<Header>>, start: Option<Instant>, end: Option<Instant>)
    returns (accepted: bool)
    requires forall u | u in page :: u in f.fetchable && page[u] == DateOf(f, u)
    ensures accepted == Wanted(f, start, end)(uid)
  {
    if uid in f.indexed {
      return InBounds(DateOf(f, uid), start, end);
    }
    if uid !in page && uid !in f.fetchable {
      return false;
    }
    var date := if uid in page then page[uid] else DateOf(f, uid);
    accepted := InBounds(date, start, end);
  }

  /** The paging loop: the first `limit` wanted messages of the list, wherever the page boundaries
      fall and whatever the batches miss. */
  method ScanPages(f: Folder, uids: seq<Uid>, limit: nat, start: Option<Instant>, end: Option<Instant>)
    returns (results: seq<Uid>)
    requires limit > 0
    ensures results == FirstN(Filter(uids, Wanted(f, start, end)), limit)
  {
    var pageSize := if limit < 50 then limit else 50;
    ghost var wanted := Wanted(f, start, end);
    results := [];
    var page: map<Uid, Option<Header>> := map[];
    var offset := 0;
    while offset < |uids| && |results| < limit
      invariant offset <= |uids|
      invariant forall u | u in page :: u in f.fetchable && page[u] == DateOf(f, u)
      invariant results == Filter(uids[..offset], wanted) && |results| <= limit
    {
      if offset % pageSize == 0 {
        page := HeaderPage(f, uids[offset..if offset + pageSize <= |uids| then offset + pageSize else |uids|]);
      }
      var accepted := Accept(f, uids[offset], page, start, end);
      if accepted {
        results := results + [uids[offset]];
      }
      FilterNext(uids, offset, wanted);
      offset := offset + 1;
    }
    FilterPrefix(uids, offset, limit, wanted);
    assert uids[..|uids|] == uids;
  }

  /** Listing over a search result in ascending order; without a range only the newest are looked at. */
  method ListEmails(f: Folder, found: seq<Uid>, maxResults: int, start: Option<Instant>, end: Option<Instant>)
    returns (results: seq<Uid>)
    ensures start.Some? || end.Some? ==>
      results == FirstN(Filter(Reverse(found), Wanted(f, start, end)), Limit(maxResults))
    ensures start.None? && end.None? ==>
      results == FirstN(Filter(FirstN(Reverse(found), Limit(maxResults)), Wanted(f, start, end)), Limit(maxResults))
  {
    var uids := Reverse(found);
    if start.None? && end.None? {
      uids := FirstN(uids, Limit(maxResults));
    }
    results := ScanPages(f, uids, Limit(maxResults), start, end);
  }

  /** The UIDs the server answers to the date criteria; headers it cannot read may match or not. */
  ghost predicate Searched(f: Folder, all: seq<Uid>, start: Option<Instant>, end: Option<Instant>, found: seq<Uid>) {
    exists answer: Uid -> bool ::
      && found == Filter(all, answer)
      && forall uid | uid in all && DateOf(f, uid).Some? ::
           answer(uid) == ServerMatches(DateOf(f, uid).value, start, end)
  }

  /** Coarse search and exact filter together: listing what the search found is listing the whole
      folder, so a date range yields its first `n` messages, newest UID first, and misses none. */
  lemma SearchThenFilterIsExact(
    f: Folder, all: seq<Uid>, found: seq<Uid>, start: Option<Instant>, end: Option<Instant>, n: nat)
    requires start.Some? || end.Some?
    requires forall uid | uid in all && DateOf(f, uid).Some? :: ZoneWithinADay(DateOf(f, uid).value)
    requires Searched(f, all, start, end, found)
    ensures FirstN(Filter(Reverse(found), Wanted(f, start, end)), n)
         == FirstN(Filter(Reverse(all), Wanted(f, start, end)), n)
  {
    var wanted := Wanted(f, start, end);
    var answer: Uid -> bool :|
      && found == Filter(all, answer)
      && forall uid | uid in all && DateOf(f, uid).Some? ::
           answer(uid) == ServerMatches(DateOf(f, uid).value, start, end);
    forall uid | uid in all ensures wanted(uid) ==> answer(uid) {
      if wanted(uid) {
        PaddingMissesNothing(DateOf(f, uid).value, start, end);
      }
    }
    FilterTwice(all, answer, wanted);
    FilterReverse(found, wanted);
    FilterReverse(all, wanted);
  }

  // ---- newest first ----

  ghost predicate Ascending(uids: seq<Uid>) {
    forall i, j :: 0 <= i < j < |uids| ==> uids[i] < uids[j]
  }

  ghost predicate Descending(uids: seq<Uid>) {
    forall i, j :: 0 <= i < j < |uids| ==> uids[i] > uids[j]
  }

  lemma {:induction false} ReverseDescends(xs: seq<Uid>)
    requires Ascending(xs)
    ensures Descending(Reverse(xs))
    ensures forall u :: u in Reverse(xs) <==> u in xs
  {
    if xs != [] {
      ReverseDescends(xs[1..]);
      var rest := Reverse(xs[1..]);
      assert xs == [xs[0]] + xs[1..];
      forall i, j | 0 <= i < j < |rest + [xs[0]]| ensures (rest + [xs[0]])[i] > (rest + [xs[0]])[j] {
        assert rest[i] in xs[1..];
      }
    }
  }

  lemma {:induction false} FilterDescends(xs: seq<Uid>, keep: Uid -> bool)
    requires Descending(xs)
    ensures Descending(Filter(xs, keep))
    ensures forall u :: u in Filter(xs, keep) <==> u in xs && keep(u)
  {
    if xs != [] {
      FilterDescends(xs[1..], keep);
      var rest := Filter(xs[1..], keep);
      assert xs == [xs[0]] + xs[1..];
      forall i, j | 0 <= i < j < |[xs[0]] + rest| ensures ([xs[0]] + rest)[i] > ([xs[0]] + rest)[j] {
        assert rest[j - 1] in xs[1..];
      }
    }
  }

  /** `list` are the newest of the UIDs that satisfy `keep`, newest first, and all of them if there are
      no more than `n`. */
  ghost predicate NewestOf(found: seq<Uid>, keep: Uid -> bool, n: nat, list: seq<Uid>) {
    && Descending(list) && |list| <= n
    && (forall u | u in list :: u in found && keep(u))
    && (forall u | u in found && keep(u) && u !in list :: |list| == n && forall v | v in list :: u < v)
  }

  lemma FirstAreNewest(xs: seq<Uid>, found: seq<Uid>, keep: Uid -> bool, n: nat)
    requires Descending(xs) && forall u :: u in xs <==> u in found && keep(u)
    ensures NewestOf(found, keep, n, FirstN(xs, n))
  {
    var list := FirstN(xs, n);
    forall u | u in found && keep(u) && u !in list ensures |list| == n && forall v | v in list :: u < v {
      var k :| 0 <= k < |xs| && xs[k] == u;
      assert k >= n;
    }
  }

  /** What a listing shows of a search result in ascending order: with a range, the newest messages in
      it; without one, those of the newest messages whose header can be had. */
  lemma ListingIsNewestFirst(f: Folder, found: seq<Uid>, n: nat, start: Option<Instant>, end: Option<Instant>)
    requires Ascending(found)
    ensures var keep := Wanted(f, start, end);
            && NewestOf(found, keep, n, FirstN(Filter(Reverse(found), keep), n))
            && var newest := FirstN(Reverse(found), n);
               && NewestOf(found, (uid: Uid) => true, n, newest)
               && Descending(FirstN(Filter(newest, keep), n))
               && forall u :: u in FirstN(Filter(newest, keep), n) <==> u in newest && keep(u)
  {
    var keep := Wanted(f, start, end);
    ReverseDescends(found);
    FilterDescends(Reverse(found), keep);
    FirstAreNewest(Filter(Reverse(found), keep), found, keep, n);
    FirstAreNewest(Reverse(found), found, (uid: Uid) => true, n);
    FilterDescends(FirstN(Reverse(found), n), keep);
    FilterIsShorter(FirstN(Reverse(found), n), keep);
  }

  lemma {:induction false} FilterIsShorter<T>(xs: seq<T>, keep: T -> bool)
    ensures |Filter(xs, keep)| <= |xs|
  {
    if xs != [] {
      FilterIsShorter(xs[1..], keep);
    }
  }

  /** What is wanted: a readable message with a date that is in range; without a range, any readable one. */
  lemma WantedMeans(f: Folder, uid: Uid, start: Option<Instant>, end: Option<Instant>)
    ensures Wanted(f, start, end)(uid) ==> uid in f.indexed || uid in f.fetchable
    ensures start.None? && end.None? && (uid in f.indexed || uid in f.fetchable) ==> Wanted(f, start, end)(uid)
    ensures uid in f.indexed + f.fetchable && uid in f.dates && f.dates[uid].Some? ==>
      (Wanted(f, start, end)(uid) <==>
        && (start.Some? ==> start.value <= f.dates[uid].value.sent)
        && (end.Some? ==> f.dates[uid].value.sent < end.value))
    ensures (start.Some? || end.Some?) && (uid !in f.dates || f.dates[uid].None?) ==> !Wanted(f, start, end)(uid)
  {
  }
}
