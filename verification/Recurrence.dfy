/** Expansion of recurring calendar events into the occurrences that meet a time window. */
module Recurrence {
  import opened Prelude

  /** Instants in microseconds. */
  type Instant = int

  const MINUTE: int := 60_000_000
  const DAY: int := 86_400_000_000
  const EXPANSION_LIMIT: nat := 1000

  /** The rule column: empty, only white space, unparseable, or a recurrence given by its instants
      `at(0), at(1), ...`, endless when `length` is missing. */
  datatype Rule =
    | NoRule
    | BlankRule
    | BadRule
    | Recurring(at: nat -> Instant, length: Option<nat>)

  /** What an exclusion date names: a day for all-day events, otherwise a minute. */
  datatype Key = OnDay(day: int) | AtMinute(minute: int)

  datatype Event = Event(dtstart: Instant, dtend: Instant, allDay: bool, rule: Rule, exdates: set<Key>)

  /** One entry of the answer; `key` is the suffix of its compound uid, missing on a base event. */
  datatype Occurrence = Occurrence(start: Instant, end: Instant, key: Option<Key>)

  function Duration(ev: Event): int {
    ev.dtend - ev.dtstart
  }

  function KeyAt(ev: Event, at: Instant): Key {
    if ev.allDay then OnDay(at / DAY) else AtMinute(at / MINUTE)
  }

  function Base(ev: Event): Occurrence {
    Occurrence(ev.dtstart, ev.dtend, None)
  }

  function OccurrenceAt(ev: Event, at: Instant): Occurrence {
    Occurrence(at, at + Duration(ev), Some(KeyAt(ev, at)))
  }

  predicate Exists(rule: Rule, i: nat) {
    rule.Recurring? && (rule.length.None? || i < rule.length.value)
  }

  /** A recurrence is strictly increasing and starts no earlier than its event. */
  ghost predicate Proper(ev: Event) {
    && (forall i, j | 0 <= i < j && Exists(ev.rule, j) :: ev.rule.at(i) < ev.rule.at(j))
    && (forall i | 0 <= i && Exists(ev.rule, i) :: ev.dtstart <= ev.rule.at(i))
  }

  /** An event of this duration starting at `at` meets the half-open window. */
  predicate Meets(ev: Event, at: Instant, start: Instant, end: Instant) {
    at < end && at + Duration(ev) > start
  }

  predicate Excluded(ev: Event, at: Instant) {
    KeyAt(ev, at) in ev.exdates
  }

  // ---- the plain definition ----

  /** The occurrences among the first `n` that meet the window and are not excluded, in order. */
  function Select(ev: Event, start: Instant, end: Instant, n: nat): seq<Occurrence>
    requires ev.rule.Recurring?
  {
    if n == 0 then []
    else
      var rest := Select(ev, start, end, n - 1);
      var at := ev.rule.at(n - 1);
      if Exists(ev.rule, n - 1) && Meets(ev, at, start, end) && !Excluded(ev, at)
      then rest + [OccurrenceAt(ev, at)] else rest
  }

  /** From this index on, every occurrence starts at or after `end`. */
  function Horizon(ev: Event, end: Instant): nat
    requires ev.rule.Recurring?
  {
    match ev.rule.length
    case Some(n) => n
    case None => if end > ev.rule.at(0) then end - ev.rule.at(0) else 0
  }

  /** All occurrences of the series that meet the window: the meaning of an expansion. */
  function Window(ev: Event, start: Instant, end: Instant): seq<Occurrence> {
    if ev.rule.Recurring? then Select(ev, start, end, Horizon(ev, end))
    else if Meets(ev, ev.dtstart, start, end) then [Base(ev)]
    else []
  }

  lemma {:induction false} InstantsRise(ev: Event, i: nat)
    requires Proper(ev) && Exists(ev.rule, i)
    ensures ev.rule.at(0) + i <= ev.rule.at(i)
  {
    if i > 0 {
      InstantsRise(ev, i - 1);
    }
  }

  lemma BeyondHorizon(ev: Event, end: Instant, i: nat)
    requires Proper(ev) && Exists(ev.rule, i) && i >= Horizon(ev, end)
    ensures ev.rule.at(i) >= end
  {
    InstantsRise(ev, i);
  }

  lemma {:induction false} SelectPrefix(ev: Event, start: Instant, end: Instant, m: nat, n: nat)
    requires ev.rule.Recurring? && m <= n
    ensures Select(ev, start, end, m) <= Select(ev, start, end, n)
    decreases n
  {
    if m < n {
      SelectPrefix(ev, start, end, m, n - 1);
    }
  }

  /** Nothing more is selected once the instants have reached the end of the window. */
  lemma {:induction false} SelectStable(ev: Event, start: Instant, end: Instant, m: nat, n: nat)
    requires ev.rule.Recurring? && m <= n
    requires forall i | m <= i < n :: Exists(ev.rule, i) ==> ev.rule.at(i) >= end
    ensures Select(ev, start, end, n) == Select(ev, start, end, m)
    decreases n
  {
    if m < n {
      SelectStable(ev, start, end, m, n - 1);
    }
  }

  /** The window holds exactly the occurrences that meet it and are not excluded: nothing else is
      in it, and no index of the series, however large, is missed. */
  lemma {:induction false} WindowIsExact(ev: Event, start: Instant, end: Instant, i: nat)
    requires Proper(ev) && Exists(ev.rule, i)
    ensures OccurrenceAt(ev, ev.rule.at(i)) in Window(ev, start, end)
        <==> Meets(ev, ev.rule.at(i), start, end) && !Excluded(ev, ev.rule.at(i))
  {
    SelectMembers(ev, start, end, Horizon(ev, end));
    if i >= Horizon(ev, end) {
      BeyondHorizon(ev, end, i);
    }
  }

  lemma {:induction false} SelectMembers(ev: Event, start: Instant, end: Instant, n: nat)
    requires ev.rule.Recurring?
    ensures forall i | 0 <= i < n && Exists(ev.rule, i) ::
              Meets(ev, ev.rule.at(i), start, end) && !Excluded(ev, ev.rule.at(i)) ==>
              OccurrenceAt(ev, ev.rule.at(i)) in Select(ev, start, end, n)
    ensures forall o | o in Select(ev, start, end, n) ::
              Meets(ev, o.start, start, end) && !Excluded(ev, o.start) && o == OccurrenceAt(ev, o.start)
  {
    if n > 0 {
      SelectMembers(ev, start, end, n - 1);
    }
  }

  /** `key` names the day or the minute in which `at` lies, as the event requires. */
  predicate Names(ev: Event, key: Key, at: Instant) {
    match key
    case OnDay(d) => ev.allDay && d * DAY <= at < (d + 1) * DAY
    case AtMinute(m) => !ev.allDay && m * MINUTE <= at < (m + 1) * MINUTE
  }

  lemma KeyNames(ev: Event, at: Instant)
    ensures Names(ev, KeyAt(ev, at), at)
    ensures forall key | Names(ev, key, at) :: key == KeyAt(ev, at)
  {
  }

  /** What an expanded occurrence looks like: it starts at an instant of the series, lasts as long as
      the event, is known by the day or the minute of its start, and no exclusion date names that. */
  ghost predicate IsOccurrence(ev: Event, o: Occurrence, i: nat) {
    && Exists(ev.rule, i) && o.start == ev.rule.at(i)
    && o.end - o.start == ev.dtend - ev.dtstart
    && o.key.Some? && Names(ev, o.key.value, o.start)
    && forall key | key in ev.exdates :: !Names(ev, key, o.start)
  }

  ghost predicate OccursBefore(ev: Event, o: Occurrence, n: nat) {
    exists i :: 0 <= i < n && IsOccurrence(ev, o, i)
  }

  /** Each is one of the first `n` occurrences, and they are in order of time. */
  ghost predicate InOrder(ev: Event, all: seq<Occurrence>, n: nat) {
    && (forall k | 0 <= k < |all| :: OccursBefore(ev, all[k], n))
    && (forall k, l | 0 <= k < l < |all| :: all[k].start < all[l].start)
  }

  lemma {:induction false} SelectedAreInOrder(ev: Event, start: Instant, end: Instant, n: nat)
    requires Proper(ev) && ev.rule.Recurring?
    ensures InOrder(ev, Select(ev, start, end, n), n)
  {
    if n > 0 {
      SelectedAreInOrder(ev, start, end, n - 1);
      var rest, all := Select(ev, start, end, n - 1), Select(ev, start, end, n);
      KeyNames(ev, ev.rule.at(n - 1));
      forall k | 0 <= k < |all| ensures OccursBefore(ev, all[k], n) {
        if k < |rest| {
          assert OccursBefore(ev, rest[k], n - 1);
        } else {
          assert IsOccurrence(ev, all[k], n - 1);
        }
      }
      forall k, l | 0 <= k < l < |all| ensures all[k].start < all[l].start {
        assert OccursBefore(ev, rest[k], n - 1);
      }
    }
  }

  /** What an expansion shows: occurrences of the series, each once, in order of time, each meeting
      the window. */
  lemma WindowShowsOccurrences(ev: Event, start: Instant, end: Instant, k: nat) returns (i: nat)
    requires Proper(ev) && ev.rule.Recurring? && k < |Window(ev, start, end)|
    ensures var o := Window(ev, start, end)[k];
            && IsOccurrence(ev, o, i) && o.start < end && o.end > start
            && forall l | 0 <= l < k :: Window(ev, start, end)[l].start < o.start
  {
    SelectedAreInOrder(ev, start, end, Horizon(ev, end));
    SelectMembers(ev, start, end, Horizon(ev, end));
    var all := Window(ev, start, end);
    assert OccursBefore(ev, all[k], Horizon(ev, end));
    i :| 0 <= i < Horizon(ev, end) && IsOccurrence(ev, all[k], i);
    assert all[k] in all;
  }

  /** And nothing of the series is missing but what an exclusion date names. */
  lemma WindowMissesNothing(ev: Event, start: Instant, end: Instant, i: nat)
    requires Proper(ev) && Exists(ev.rule, i)
    requires ev.rule.at(i) < end && ev.rule.at(i) + (ev.dtend - ev.dtstart) > start
    requires forall key | key in ev.exdates :: !Names(ev, key, ev.rule.at(i))
    ensures exists k :: 0 <= k < |Window(ev, start, end)| && IsOccurrence(ev, Window(ev, start, end)[k], i)
  {
    KeyNames(ev, ev.rule.at(i));
    WindowIsExact(ev, start, end, i);
    var k :| 0 <= k < |Window(ev, start, end)| && Window(ev, start, end)[k] == OccurrenceAt(ev, ev.rule.at(i));
    assert IsOccurrence(ev, Window(ev, start, end)[k], i);
  }

  /** A single event shows itself, as it is stored, if it overlaps the window. */
  lemma SingleEventShowsItself(ev: Event, start: Instant, end: Instant)
    requires !ev.rule.Recurring?
    ensures Window(ev, start, end)
         == if ev.dtstart < end && ev.dtend > start then [Occurrence(ev.dtstart, ev.dtend, None)] else []
  {
  }

  // ---- the expansion ----

  /** If the occurrence at index `j` meets the window, it came before the limit was reached. */
  predicate UnderLimit(ev: Event, start: Instant, end: Instant, j: nat)
    requires ev.rule.Recurring?
  {
    Meets(ev, ev.rule.at(j), start, end) ==> |Select(ev, start, end, j)| < EXPANSION_LIMIT
  }

  predicate BelowLimit(ev: Event, start: Instant, end: Instant, n: nat)
    requires ev.rule.Recurring?
  {
    forall j | 0 <= j < n :: UnderLimit(ev, start, end, j)
  }

  /** An occurrence that meets the window, excluded or not, comes after the first 1000 kept ones. */
  ghost predicate Overflows(ev: Event, start: Instant, end: Instant) {
    ev.rule.Recurring? &&
    exists i | 0 <= i < Horizon(ev, end) :: Exists(ev.rule, i) && !UnderLimit(ev, start, end, i)
  }

  /** Once the scan has reached the end of the window or of the series, it has selected the window. */
  lemma ScanIsComplete(ev: Event, start: Instant, end: Instant, i: nat)
    requires Proper(ev) && ev.rule.Recurring? && (Exists(ev.rule, i) ==> ev.rule.at(i) >= end)
    ensures Window(ev, start, end) == Select(ev, start, end, i)
    ensures forall j | i <= j && Exists(ev.rule, j) :: UnderLimit(ev, start, end, j)
  {
    var horizon := Horizon(ev, end);
    if i <= horizon {
      SelectStable(ev, start, end, i, horizon);
    } else {
      forall j | horizon <= j < i && Exists(ev.rule, j) ensures ev.rule.at(j) >= end {
        BeyondHorizon(ev, end, j);
      }
      SelectStable(ev, start, end, horizon, i);
    }
  }

  /** Stopping at the limit has found the first 1000 occurrences of the window. */
  lemma ScanIsTruncated(ev: Event, start: Instant, end: Instant, i: nat)
    requires Proper(ev) && Exists(ev.rule, i) && Meets(ev, ev.rule.at(i), start, end)
    requires |Select(ev, start, end, i)| == EXPANSION_LIMIT
    ensures FirstN(Window(ev, start, end), EXPANSION_LIMIT) == Select(ev, start, end, i)
    ensures Overflows(ev, start, end)
  {
    assert !UnderLimit(ev, start, end, i);
    if i >= Horizon(ev, end) {
      BeyondHorizon(ev, end, i);
    }
    SelectPrefix(ev, start, end, i, Horizon(ev, end));
  }

  /** Skips to the first occurrence not before `scanFrom`; ends even for an endless rule. */
  method ScanAfter(ev: Event, scanFrom: Instant) returns (i: nat)
    requires Proper(ev) && ev.rule.Recurring?
    ensures forall j | 0 <= j < i :: Exists(ev.rule, j) && ev.rule.at(j) < scanFrom
    ensures Exists(ev.rule, i) ==> ev.rule.at(i) >= scanFrom
  {
    i := 0;
    while Exists(ev.rule, i) && ev.rule.at(i) < scanFrom
      invariant forall j | 0 <= j < i :: Exists(ev.rule, j) && ev.rule.at(j) < scanFrom
      decreases if ev.rule.length.Some? then ev.rule.length.value - i else scanFrom - ev.rule.at(i)
    {
      i := i + 1;
      assert ev.rule.length.None? ==> Exists(ev.rule, i);
    }
  }

  lemma {:induction false} SkippedAreOutside(ev: Event, start: Instant, end: Instant, i: nat)
    requires ev.rule.Recurring?
    requires forall j | 0 <= j < i :: !Meets(ev, ev.rule.at(j), start, end)
    ensures Select(ev, start, end, i) == []
  {
    if i > 0 {
      SkippedAreOutside(ev, start, end, i - 1);
    }
  }

  lemma NextIndex(ev: Event, start: Instant, end: Instant, i: nat)
    requires Exists(ev.rule, i) && BelowLimit(ev, start, end, i)
    requires Meets(ev, ev.rule.at(i), start, end) ==> |Select(ev, start, end, i)| < EXPANSION_LIMIT
    ensures BelowLimit(ev, start, end, i + 1)
    ensures Select(ev, start, end, i + 1)
         == Select(ev, start, end, i)
            + if Meets(ev, ev.rule.at(i), start, end) && !Excluded(ev, ev.rule.at(i))
              then [OccurrenceAt(ev, ev.rule.at(i))] else []
  {
  }

  /** The collecting loop, from index `first` on; `stop` is the index at which it ends. */
  method Collect(ev: Event, start: Instant, end: Instant, first: nat)
    returns (results: seq<Occurrence>, truncated: bool, ghost stop: nat)
    requires Proper(ev) && ev.rule.Recurring?
    requires Select(ev, start, end, first) == [] && BelowLimit(ev, start, end, first)
    ensures results == Select(ev, start, end, stop) && |results| <= EXPANSION_LIMIT
    ensures truncated ==>
      Exists(ev.rule, stop) && Meets(ev, ev.rule.at(stop), start, end) && |results| == EXPANSION_LIMIT
    ensures !truncated ==> BelowLimit(ev, start, end, stop) && (Exists(ev.rule, stop) ==> ev.rule.at(stop) >= end)
  {
    var i := first;
    results, truncated := [], false;
    while Exists(ev.rule, i) && ev.rule.at(i) < end
      invariant results == Select(ev, start, end, i) && |results| <= EXPANSION_LIMIT
      invariant BelowLimit(ev, start, end, i)
      decreases if ev.rule.length.Some? then ev.rule.length.value - i else end - ev.rule.at(i)
    {
      var at := ev.rule.at(i);
      if at + Duration(ev) > start {
        if |results| >= EXPANSION_LIMIT {
          return results, true, i;
        }
        if KeyAt(ev, at) !in ev.exdates {
          results := results + [OccurrenceAt(ev, at)];
        }
      }
      NextIndex(ev, start, end, i);
      i := i + 1;
      assert ev.rule.length.None? ==> Exists(ev.rule, i);
    }
    stop := i;
  }

  /** The expansion loop, scanning from the start of the window less the duration: it ends even for
      an endless rule, returns the first 1000 occurrences of the window in order, and raises its flag
      exactly when the scan met one more occurrence, be it an excluded one. */
  method ExpandRecurring(ev: Event, start: Instant, end: Instant) returns (results: seq<Occurrence>, truncated: bool)
    requires Proper(ev) && ev.rule.Recurring?
    ensures results == FirstN(Window(ev, start, end), EXPANSION_LIMIT)
    ensures truncated <==> Overflows(ev, start, end)
  {
    var first := ScanAfter(ev, start - Duration(ev));
    SkippedAreOutside(ev, start, end, first);
    ghost var stop: nat;
    results, truncated, stop := Collect(ev, start, end, first);
    if truncated {
      ScanIsTruncated(ev, start, end, stop);
    } else {
      ScanIsComplete(ev, start, end, stop);
    }
  }

  // ---- what the truncation flag says ----

  lemma {:induction false} OverflowIndex(ev: Event, start: Instant, end: Instant, n: nat) returns (i: nat)
    requires ev.rule.Recurring? && |Select(ev, start, end, n)| > EXPANSION_LIMIT
    ensures i < n && Exists(ev.rule, i) && !UnderLimit(ev, start, end, i)
  {
    i := n - 1;
    if UnderLimit(ev, start, end, i) || !Exists(ev.rule, i) {
      i := OverflowIndex(ev, start, end, n - 1);
    }
  }

  /** An excluded occurrence that meets the window comes after 1000 kept ones. */
  ghost predicate ExcludedPastLimit(ev: Event, start: Instant, end: Instant)
    requires ev.rule.Recurring?
  {
    exists i | 0 <= i < Horizon(ev, end) ::
      Exists(ev.rule, i) && !UnderLimit(ev, start, end, i) && Excluded(ev, ev.rule.at(i))
  }

  /** Whatever is cut off is flagged; and the flag says no more than that, except in one case: the
      window holds exactly 1000 occurrences, and after the last of them comes an excluded one. */
  lemma FlagIsExactWhen(ev: Event, start: Instant, end: Instant)
    requires Proper(ev) && ev.rule.Recurring?
    ensures |Window(ev, start, end)| > EXPANSION_LIMIT ==> Overflows(ev, start, end)
    ensures (Overflows(ev, start, end) <==> |Window(ev, start, end)| > EXPANSION_LIMIT)
        <==> !(|Window(ev, start, end)| == EXPANSION_LIMIT && ExcludedPastLimit(ev, start, end))
  {
    if |Window(ev, start, end)| > EXPANSION_LIMIT {
      var i := OverflowIndex(ev, start, end, Horizon(ev, end));
    } else if Overflows(ev, start, end) {
      OverstatedFlag(ev, start, end);
    }
  }

  lemma OverstatedFlag(ev: Event, start: Instant, end: Instant)
    requires ev.rule.Recurring? && Overflows(ev, start, end) && |Window(ev, start, end)| <= EXPANSION_LIMIT
    ensures |Window(ev, start, end)| == EXPANSION_LIMIT && ExcludedPastLimit(ev, start, end)
  {
    var i :| 0 <= i < Horizon(ev, end) && Exists(ev.rule, i) && !UnderLimit(ev, start, end, i);
    SelectPrefix(ev, start, end, i, i + 1);
    SelectPrefix(ev, start, end, i + 1, Horizon(ev, end));
    assert |Select(ev, start, end, i + 1)| <= EXPANSION_LIMIT;
  }

  /** 1001 meetings, one a minute, of which the last is cancelled. */
  function LastOneCancelled(): Event {
    Event(0, MINUTE, false, Recurring(i => i * MINUTE, Some(1001)), {AtMinute(1000)})
  }

  lemma {:induction false} CancelledPrefix(n: nat)
    requires n <= 1000
    ensures |Select(LastOneCancelled(), 0, 2000 * MINUTE, n)| == n
  {
    if n > 0 {
      CancelledPrefix(n - 1);
      assert KeyAt(LastOneCancelled(), (n - 1) * MINUTE) == AtMinute(n - 1);
    }
  }

  /** The case occurs, and the flag is raised on a complete answer: the limit is tested before the
      exclusion dates. */
  lemma FlagCanOverstate()
    ensures Proper(LastOneCancelled())
    ensures |Window(LastOneCancelled(), 0, 2000 * MINUTE)| == EXPANSION_LIMIT
    ensures Overflows(LastOneCancelled(), 0, 2000 * MINUTE)
  {
    CancelledPrefix(1000);
    assert KeyAt(LastOneCancelled(), 1000 * MINUTE) == AtMinute(1000);
    assert !UnderLimit(LastOneCancelled(), 0, 2000 * MINUTE, 1000);
  }

  // ---- listing a window ----

  /** The database filter of the listing, for an event of a calendar of the caller. */
  predicate Prefilter(ev: Event, start: Instant, end: Instant) {
    if ev.rule.NoRule? then ev.dtstart < end && ev.dtend > start else ev.dtstart < end
  }

  ghost function Expansion(ev: Event, start: Instant, end: Instant): seq<Occurrence> {
    match ev.rule
    case NoRule => [Base(ev)]
    case BlankRule => [Base(ev)]
    case BadRule => if Meets(ev, ev.dtstart, start, end) then [Base(ev)] else []
    case Recurring(_, _) => FirstN(Window(ev, start, end), EXPANSION_LIMIT)
  }

  method Expand(ev: Event, start: Instant, end: Instant) returns (results: seq<Occurrence>, truncated: bool)
    requires Proper(ev)
    ensures results == Expansion(ev, start, end)
    ensures truncated <==> Overflows(ev, start, end)
  {
    truncated := false;
    match ev.rule {
      case NoRule => results := [Base(ev)];
      case BlankRule => results := [Base(ev)];
      case BadRule => results := if ev.dtstart < end && ev.dtend > start then [Base(ev)] else [];
      case Recurring(_, _) => results, truncated := ExpandRecurring(ev, start, end);
    }
  }

  /** What one stored event contributes to a listing. */
  ghost function Contribution(ev: Event, start: Instant, end: Instant): seq<Occurrence> {
    if Prefilter(ev, start, end) then Expansion(ev, start, end) else []
  }

  ghost function Listing(rows: seq<Event>, start: Instant, end: Instant): seq<Occurrence> {
    if rows == [] then []
    else Listing(rows[..|rows| - 1], start, end) + Contribution(rows[|rows| - 1], start, end)
  }

  lemma ListingNext(rows: seq<Event>, start: Instant, end: Instant, n: nat)
    requires n < |rows|
    ensures Listing(rows[..n + 1], start, end)
         == Listing(rows[..n], start, end) + Contribution(rows[n], start, end)
  {
    assert rows[..n + 1][..n] == rows[..n];
  }

  /** A stored event of which the listing shows only a part, or would have to exclude one more. */
  ghost predicate Cut(ev: Event, start: Instant, end: Instant) {
    Prefilter(ev, start, end) && Overflows(ev, start, end)
  }

  ghost predicate SomeCut(rows: seq<Event>, start: Instant, end: Instant) {
    exists n | 0 <= n < |rows| :: Cut(rows[n], start, end)
  }

  lemma SomeCutNext(rows: seq<Event>, start: Instant, end: Instant, n: nat)
    requires n < |rows|
    ensures SomeCut(rows[..n + 1], start, end) <==> SomeCut(rows[..n], start, end) || Cut(rows[n], start, end)
  {
    if SomeCut(rows[..n], start, end) {
      var m :| 0 <= m < n && Cut(rows[..n][m], start, end);
      assert rows[..n + 1][m] == rows[..n][m];
    }
    if Cut(rows[n], start, end) {
      assert rows[..n + 1][n] == rows[n];
    }
    if SomeCut(rows[..n + 1], start, end) {
      var m :| 0 <= m < n + 1 && Cut(rows[..n + 1][m], start, end);
      assert m < n ==> rows[..n][m] == rows[m];
    }
  }

  /** The listing before its final sort by start. */
  method ListEvents(rows: seq<Event>, start: Instant, end: Instant) returns (expanded: seq<Occurrence>, truncated: bool)
    requires forall n | 0 <= n < |rows| :: Proper(rows[n])
    ensures expanded == Listing(rows, start, end)
    ensures truncated <==> SomeCut(rows, start, end)
  {
    expanded, truncated := [], false;
    for n := 0 to |rows|
      invariant expanded == Listing(rows[..n], start, end)
      invariant truncated <==> SomeCut(rows[..n], start, end)
    {
      if Prefilter(rows[n], start, end) {
        var part, cut := Expand(rows[n], start, end);
        expanded := expanded + part;
        truncated := truncated || cut;
      }
      ListingNext(rows, start, end, n);
      SomeCutNext(rows, start, end, n);
    }
    assert rows[..|rows|] == rows;
  }

  /** The filter drops no series with an occurrence in the window, so a listing shows exactly what
      the windows hold, except for one kind of row: a rule of white space only takes the recurring
      branch of the filter and the plain branch of the expansion, and neither checks that an event
      that began before the end of the window has not ended before its start. */
  lemma ContributionIsExactWhen(ev: Event, start: Instant, end: Instant)
    requires Proper(ev)
    ensures Contribution(ev, start, end) == FirstN(Window(ev, start, end), EXPANSION_LIMIT)
        <==> !(ev.rule.BlankRule? && ev.dtstart < end && ev.dtend <= start)
  {
    if ev.rule.Recurring? && !Prefilter(ev, start, end) {
      SelectStable(ev, start, end, 0, Horizon(ev, end));
    }
  }
}
