/** The device-flow polling store: a timed state machine per login attempt (sections 3.2 and 3.5 of
    RFC 8628).  Times are seconds; each request's checks before the provider call happen at one
    instant, and the provider's answer arrives at a later one. */
module DeviceFlow {
  import opened Prelude

  type PollId = string
  type Time = real

  datatype Entry = Entry(interval: int, expiresAt: Time, nextPollAt: Time)

  type Entries = map<PollId, Entry>

  function AtLeastOne(n: int): int {
    if n < 1 then 1 else n
  }

  /** Python's `int(n or default)`. */
  function OrDefault(n: Option<int>, default: int): int {
    if n.Some? && n.value != 0 then n.value else default
  }

  // ---- store operations ----

  function Prune(p: Entries, now: Time): Entries {
    map id | id in p && !(p[id].expiresAt < now) :: p[id]
  }

  function Lifetime(expiresIn: Option<int>): int {
    AtLeastOne(OrDefault(expiresIn, 900))
  }

  function Added(p: Entries, id: PollId, interval: Option<int>, expiresIn: Option<int>, now: Time): Entries {
    Prune(p, now)[id := Entry(AtLeastOne(OrDefault(interval, 5)), now + Lifetime(expiresIn) as real, 0.0)]
  }

  function Scheduled(entry: Entry, now: Time): Entry {
    entry.(nextPollAt := now + OrDefault(Some(entry.interval), 5) as real)
  }

  function Slowed(entry: Entry, interval: Option<int>, now: Time): Entry {
    var i := AtLeastOne(OrDefault(interval, OrDefault(Some(entry.interval), 5) + 5));
    entry.(interval := i, nextPollAt := now + i as real)
  }

  /** What the provider answers, an exception included. */
  datatype Outcome = StillPending | SlowDown(interval: Option<int>) | Authorized | Failed | Raised

  predicate Terminal(o: Outcome) {
    o.Authorized? || o.Failed? || o.Raised?
  }

  datatype Response = NotFound | Waiting | Answered(outcome: Outcome)

  /** What the store holds after the provider's answer. */
  function Settle(p: Entries, id: PollId, outcome: Outcome, after: Time): Entries {
    if Terminal(outcome) then p - {id}
    else if id !in p then p
    else if outcome.SlowDown? then p[id := Slowed(p[id], outcome.interval, after)]
    else p[id := Scheduled(p[id], after)]
  }

  /** One poll request at `now`: the provider is called, with its answer at `after`, only for an
      unexpired entry whose waiting time is over. */
  function Poll(p: Entries, id: PollId, outcome: Outcome, now: Time, after: Time): (Entries, Response) {
    var live := Prune(p, now);
    if id !in live then (live, NotFound)
    else if now < live[id].nextPollAt then (live, Waiting)
    else (Settle(live, id, outcome, after), Answered(outcome))
  }

  class PendingDeviceFlowStore {
    var pending: Entries

    method PruneExpired(now: Time)
      modifies this
      ensures pending == Prune(old(pending), now)
    {
      var todo := pending.Keys;
      while todo != {}
        invariant todo <= old(pending).Keys
        invariant pending ==
          map id | id in old(pending) && (id in todo || !(old(pending)[id].expiresAt < now)) :: old(pending)[id]
        decreases todo
      {
        var id :| id in todo;
        todo := todo - {id};
        if pending[id].expiresAt < now {
          pending := pending - {id};
        }
      }
    }

    method Add(id: PollId, interval: Option<int>, expiresIn: Option<int>, now: Time)
      modifies this
      ensures pending == Added(old(pending), id, interval, expiresIn, now)
    {
      PruneExpired(now);
      var i := AtLeastOne(OrDefault(interval, 5));
      pending := pending[id := Entry(i, now + AtLeastOne(OrDefault(expiresIn, 900)) as real, 0.0)];
    }

    method HasPayload(id: PollId, now: Time) returns (found: bool)
      modifies this
      ensures pending == Prune(old(pending), now) && (found <==> id in pending)
    {
      PruneExpired(now);
      found := id in pending;
    }

    method IsThrottled(id: PollId, now: Time) returns (throttled: bool)
      ensures throttled <==> id in pending && now < pending[id].nextPollAt
    {
      throttled := id in pending && now < pending[id].nextPollAt;
    }

    method ScheduleNext(id: PollId, now: Time)
      modifies this
      ensures pending ==
        if id in old(pending) then old(pending)[id := Scheduled(old(pending)[id], now)] else old(pending)
    {
      if id in pending {
        var wait := OrDefault(Some(pending[id].interval), 5);
        pending := pending[id := pending[id].(nextPollAt := now + wait as real)];
      }
    }

    method SlowDown(id: PollId, interval: Option<int>, now: Time)
      modifies this
      ensures pending ==
        if id in old(pending) then old(pending)[id := Slowed(old(pending)[id], interval, now)] else old(pending)
    {
      if id in pending {
        var entry := pending[id];
        var i := OrDefault(interval, OrDefault(Some(entry.interval), 5) + 5);
        entry := entry.(interval := AtLeastOne(i));
        pending := pending[id := entry.(nextPollAt := now + entry.interval as real)];
      }
    }

    method Pop(id: PollId)
      modifies this
      ensures pending == old(pending) - {id}
    {
      pending := pending - {id};
    }

    /** The poll handler; `outcome` is what the provider would answer if it were called. */
    method DevicePoll(id: PollId, outcome: Outcome, now: Time, after: Time) returns (response: Response)
      modifies this
      ensures (pending, response) == Poll(old(pending), id, outcome, now, after)
    {
      var found := HasPayload(id, now);
      if !found {
        return NotFound;
      }
      var throttled := IsThrottled(id, now);
      if throttled {
        return Waiting;
      }
      response := Answered(outcome);
      match outcome {
        case Raised => Pop(id);
        case Authorized => Pop(id);
        case Failed => Pop(id);
        case SlowDown(interval) => SlowDown(id, interval, after);
        case StillPending => ScheduleNext(id, after);
      }
    }
  }

  // ---- runs ----

  /** One call of the provider: when it was made, and what came of it: the interval in force from
      then on, unless it ended the attempt. */
  datatype Call = Call(at: Time, interval: int, ended: bool)

  /** When an attempt was started and for how many seconds it is valid. */
  datatype Birth = Birth(at: Time, lifetime: int)

  /** The store with the record of everything that was started and every provider call made. */
  datatype State = State(pending: Entries, births: map<PollId, Birth>, calls: map<PollId, seq<Call>>, clock: Time)

  datatype Event =
    | EvStart(id: PollId, interval: Option<int>, expiresIn: Option<int>, now: Time)
    | EvPoll(id: PollId, outcome: Outcome, now: Time, after: Time)
    | EvCancel(id: PollId)

  /** Requests one after the other, under a clock that does not run backwards and with new poll ids
      for new attempts. */
  predicate Possible(s: State, e: Event) {
    match e
    case EvStart(id, _, _, now) => s.clock <= now && id !in s.births
    case EvPoll(_, _, now, after) => s.clock <= now <= after
    case EvCancel(_) => true
  }

  function CallsOf(s: State, id: PollId): seq<Call> {
    if id in s.calls then s.calls[id] else []
  }

  function Next(s: State, e: Event): State {
    match e
    case EvStart(id, interval, expiresIn, now) =>
      State(Added(s.pending, id, interval, expiresIn, now),
            s.births[id := Birth(now, Lifetime(expiresIn))], s.calls[id := []], now)
    case EvPoll(id, outcome, now, after) =>
      var (pending, response) := Poll(s.pending, id, outcome, now, after);
      if response.Answered? then
        var interval := if id in pending then pending[id].interval else 0;
        State(pending, s.births, s.calls[id := CallsOf(s, id) + [Call(now, interval, Terminal(outcome))]], after)
      else State(pending, s.births, s.calls, now)
    case EvCancel(id) => s.(pending := s.pending - {id})
  }

  ghost predicate IsRun(s: State, events: seq<Event>)
    decreases |events|
  {
    events == [] || (Possible(s, events[0]) && IsRun(Next(s, events[0]), events[1..]))
  }

  function Run(s: State, events: seq<Event>): State
    decreases |events|
  {
    if events == [] then s else Run(Next(s, events[0]), events[1..])
  }

  /** Consecutive calls are the interval in force apart, and only the last one can have ended the attempt. */
  predicate Spaced(calls: seq<Call>) {
    forall i | 0 <= i < |calls| - 1 ::
      !calls[i].ended && calls[i].interval >= 1 && calls[i + 1].at >= calls[i].at + calls[i].interval as real
  }

  predicate CallsOk(birth: Birth, calls: seq<Call>) {
    && birth.lifetime >= 1
    && Spaced(calls)
    && forall i | 0 <= i < |calls| :: birth.at <= calls[i].at <= birth.at + birth.lifetime as real
  }

  predicate EntryOk(birth: Birth, calls: seq<Call>, entry: Entry) {
    && entry.interval >= 1
    && entry.expiresAt == birth.at + birth.lifetime as real
    && (calls != [] ==>
          var last := calls[|calls| - 1];
          !last.ended && last.interval == entry.interval && entry.nextPollAt >= last.at + entry.interval as real)
  }

  /** What holds of one attempt. */
  predicate AttemptOk(s: State, id: PollId) {
    && (id in s.births ==>
          id in s.calls && s.births[id].at <= s.clock && CallsOk(s.births[id], s.calls[id]))
    && (id in s.pending ==>
          id in s.births && id in s.calls && EntryOk(s.births[id], s.calls[id], s.pending[id]))
  }

  ghost predicate Inv(s: State) {
    forall id :: AttemptOk(s, id)
  }

  lemma CallAppended(birth: Birth, calls: seq<Call>, entry: Entry, call: Call)
    requires CallsOk(birth, calls) && EntryOk(birth, calls, entry)
    requires birth.at <= call.at && !(entry.expiresAt < call.at) && !(call.at < entry.nextPollAt)
    ensures CallsOk(birth, calls + [call])
  {
    var all := calls + [call];
    forall i | 0 <= i < |all| - 1
      ensures !all[i].ended && all[i].interval >= 1 && all[i + 1].at >= all[i].at + all[i].interval as real
    {
      if i == |calls| - 1 {
        assert all[i] == calls[|calls| - 1] && all[i + 1] == call;
      } else {
        assert all[i] == calls[i] && all[i + 1] == calls[i + 1];
      }
    }
  }

  lemma SettledEntryOk(birth: Birth, calls: seq<Call>, entry: Entry, outcome: Outcome, now: Time, after: Time)
    requires EntryOk(birth, calls, entry) && now <= after && !Terminal(outcome)
    ensures var entry' := if outcome.SlowDown? then Slowed(entry, outcome.interval, after) else Scheduled(entry, after);
            EntryOk(birth, calls + [Call(now, entry'.interval, false)], entry')
  {
  }

  /** A poll request that reaches the provider. */
  lemma AnsweredPollKeepsAttempt(s: State, e: Event)
    requires AttemptOk(s, e.id) && e.EvPoll? && Possible(s, e)
    requires e.id in Prune(s.pending, e.now) && !(e.now < s.pending[e.id].nextPollAt)
    ensures AttemptOk(Next(s, e), e.id)
  {
    var live := Prune(s.pending, e.now);
    var settled := Settle(live, e.id, e.outcome, e.after);
    var call := Call(e.now, if e.id in settled then settled[e.id].interval else 0, Terminal(e.outcome));
    CallAppended(s.births[e.id], s.calls[e.id], live[e.id], call);
    if !Terminal(e.outcome) {
      SettledEntryOk(s.births[e.id], s.calls[e.id], live[e.id], e.outcome, e.now, e.after);
    }
  }

  lemma StepKeepsAttempt(s: State, e: Event, id: PollId)
    requires AttemptOk(s, id) && Possible(s, e)
    ensures AttemptOk(Next(s, e), id)
  {
    if e.EvPoll? && e.id == id && id in Prune(s.pending, e.now) && !(e.now < s.pending[id].nextPollAt) {
      AnsweredPollKeepsAttempt(s, e);
    }
  }

  lemma StepKeepsInv(s: State, e: Event)
    requires Inv(s) && Possible(s, e)
    ensures Inv(Next(s, e))
  {
    forall id ensures AttemptOk(Next(s, e), id) {
      StepKeepsAttempt(s, e, id);
    }
  }

  /** Over any run, for every attempt: consecutive provider calls are at least the interval in force
      apart, that interval is at least 1, all calls fall within the lifetime, and at most the last
      one has ended the attempt. */
  lemma {:induction false} RunKeepsInv(s: State, events: seq<Event>)
    requires Inv(s) && IsRun(s, events)
    ensures Inv(Run(s, events))
    decreases |events|
  {
    if events != [] {
      StepKeepsInv(s, events[0]);
      RunKeepsInv(Next(s, events[0]), events[1..]);
    }
  }

  function Empty(clock: Time): State {
    State(map[], map[], map[], clock)
  }

  lemma {:induction false} Elapsed(calls: seq<Call>, n: nat, m: int)
    requires Spaced(calls) && n < |calls| && m >= 1
    requires forall i | 0 <= i < |calls| - 1 :: calls[i].interval >= m
    ensures calls[n].at >= calls[0].at + (n * m) as real
  {
    if n > 0 {
      Elapsed(calls, n - 1, m);
      assert n * m == (n - 1) * m + m;
      assert calls[n - 1 + 1].at >= calls[n - 1].at + calls[n - 1].interval as real;
    }
  }

  lemma ProductGrows(a: int, b: int, m: int)
    requires m >= 1
    ensures a >= b ==> a * m >= b * m
  {
    if a >= b {
      assert a * m == b * m + (a - b) * m;
    }
  }

  lemma QuotientBound(n: nat, m: int, total: int)
    requires m >= 1 && n * m <= total
    ensures n <= total / m
  {
    var q := total / m;
    assert total < q * m + m == (q + 1) * m;
    ProductGrows(n, q + 1, m);
  }

  lemma CallCount(birth: Birth, calls: seq<Call>, m: int)
    requires CallsOk(birth, calls) && m >= 1
    requires forall i | 0 <= i < |calls| - 1 :: calls[i].interval >= m
    ensures |calls| <= birth.lifetime / m + 1
  {
    if calls != [] {
      var n := |calls| - 1;
      Elapsed(calls, n, m);
      QuotientBound(n, m, birth.lifetime);
    }
  }

  /** From an empty store, whatever is polled, slowed down and cancelled: consecutive provider calls
      for an attempt are at least the interval in force apart, and if that was never below `m`, the
      provider is called for it at most floor(lifetime / m) + 1 times. */
  lemma ProviderCallsAreBounded(clock: Time, events: seq<Event>, id: PollId, m: int)
    requires IsRun(Empty(clock), events) && m >= 1 && id in Run(Empty(clock), events).births
    ensures var s := Run(Empty(clock), events);
            var calls := CallsOf(s, id);
            && Spaced(calls)
            && ((forall i | 0 <= i < |calls| - 1 :: calls[i].interval >= m)
                ==> |calls| <= s.births[id].lifetime / m + 1)
  {
    var s := Run(Empty(clock), events);
    RunKeepsInv(Empty(clock), events);
    assert AttemptOk(s, id);
    if forall i | 0 <= i < |CallsOf(s, id)| - 1 :: CallsOf(s, id)[i].interval >= m {
      CallCount(s.births[id], CallsOf(s, id), m);
    }
  }

  // ---- the end of an attempt ----

  /** The attempt was started and is no longer pending. */
  predicate Over(s: State, id: PollId) {
    id in s.births && id !in s.pending
  }

  /** Authorised, failed, raised, cancelled or expired: each ends the attempt at once, an expired one
      without calling the provider; any other answer of the provider leaves it pending. */
  lemma AttemptsEnd(s: State, e: Event)
    requires AttemptOk(s, e.id) && Possible(s, e) && e.id in s.births
    ensures e.EvCancel? ==> Over(Next(s, e), e.id)
    ensures e.EvPoll? && Poll(s.pending, e.id, e.outcome, e.now, e.after).1.Answered? ==>
      (Over(Next(s, e), e.id) <==> e.outcome.Authorized? || e.outcome.Failed? || e.outcome.Raised?)
    ensures e.EvPoll? && s.births[e.id].at + s.births[e.id].lifetime as real < e.now
            ==> Over(Next(s, e), e.id) && Next(s, e).calls == s.calls
  {
  }

  /** An attempt that is over stays over: the provider is never called for it again. */
  lemma {:induction false} OverIsForever(s: State, events: seq<Event>, id: PollId)
    requires Over(s, id) && IsRun(s, events)
    ensures Over(Run(s, events), id) && CallsOf(Run(s, events), id) == CallsOf(s, id)
    decreases |events|
  {
    if events != [] {
      OverIsForever(Next(s, events[0]), events[1..], id);
    }
  }

  /** What being throttled means: until the interval in force has passed since the last provider call
      for an attempt, a poll neither calls the provider nor changes the attempt. */
  lemma EarlyPollIsThrottled(s: State, e: Event)
    requires AttemptOk(s, e.id) && e.EvPoll? && Possible(s, e) && e.id in s.pending
    requires CallsOf(s, e.id) != [] && !(s.pending[e.id].expiresAt < e.now)
    requires var last := CallsOf(s, e.id)[|CallsOf(s, e.id)| - 1];
             e.now < last.at + last.interval as real
    ensures Poll(s.pending, e.id, e.outcome, e.now, e.after).1 == Waiting
    ensures var s' := Next(s, e);
            s'.calls == s.calls && e.id in s'.pending && s'.pending[e.id] == s.pending[e.id]
  {
  }

  /** The interval changes on an answered `slow_down` and never else: it rises by 5, unless the provider
      names one. */
  lemma IntervalFallsOnlyOnRequest(s: State, e: Event, id: PollId)
    requires AttemptOk(s, id) && Possible(s, e) && id in s.pending && id in Next(s, e).pending
    ensures var i, i' := s.pending[id].interval, Next(s, e).pending[id].interval;
            var slowed := e.EvPoll? && e.id == id && e.outcome.SlowDown?
                          && Poll(s.pending, id, e.outcome, e.now, e.after).1.Answered?;
            && i' >= 1
            && (!slowed ==> i' == i)
            && (slowed && (e.outcome.interval.None? || e.outcome.interval.value == 0) ==> i' == i + 5)
            && (slowed && e.outcome.interval.Some? && e.outcome.interval.value != 0 ==>
                  i' == if e.outcome.interval.value >= 1 then e.outcome.interval.value else 1)
  {
  }

  // ---- when the provider is called ----

  /** `given` as the form field reads it: missing and zero mean the default, and it is at least 1. */
  predicate IsSetting(value: int, given: Option<int>, default: int) {
    if given.None? || given.value == 0 then value == default
    else value == given.value || (given.value < 1 && value == 1)
  }

  /** A new attempt has the interval and the lifetime asked for, 5 and 900 seconds by default, and its
      first poll reaches the provider at once. */
  lemma FirstPollIsAnswered(s: State, id: PollId, interval: Option<int>, expiresIn: Option<int>, at: Time, e: Event)
    requires Possible(s, EvStart(id, interval, expiresIn, at)) && 0.0 <= at
    requires e.EvPoll? && e.id == id && at <= e.now <= e.after
    ensures var s1 := Next(s, EvStart(id, interval, expiresIn, at));
            && id in s1.pending && IsSetting(s1.pending[id].interval, interval, 5) && s1.pending[id].interval >= 1
            && id in s1.births && IsSetting(s1.births[id].lifetime, expiresIn, 900) && s1.births[id].lifetime >= 1
            && (e.now <= at + s1.births[id].lifetime as real ==>
                  |CallsOf(Next(s1, e), id)| == 1 && CallsOf(Next(s1, e), id)[0].at == e.now)
  {
  }

  /** What a poll answers: "not found" exactly if no unexpired attempt is pending under the id, and
      otherwise what the provider says, or that it is too early. */
  lemma PollAnswers(s: State, e: Event)
    requires AttemptOk(s, e.id) && e.EvPoll? && Possible(s, e)
    ensures var response := Poll(s.pending, e.id, e.outcome, e.now, e.after).1;
            && (response == NotFound <==>
                  e.id !in s.pending || s.births[e.id].at + s.births[e.id].lifetime as real < e.now)
            && (response.Answered? ==> response.outcome == e.outcome)
            && (response.Answered? <==> |CallsOf(Next(s, e), e.id)| == |CallsOf(s, e.id)| + 1)
            && (response == Waiting ==> Next(s, e).calls == s.calls && e.id in Next(s, e).pending)
  {
  }

  /** A poll at or after the time that the last answer has set, and within the lifetime, reaches the
      provider: nobody waits longer than the interval in force. */
  lemma NextPollIsAnswered(s: State, first: Event, second: Event)
    requires AttemptOk(s, first.id) && first.EvPoll? && Possible(s, first) && first.id in s.births
    requires Poll(s.pending, first.id, first.outcome, first.now, first.after).1.Answered?
    requires first.outcome.StillPending? || first.outcome.SlowDown?
    requires second.EvPoll? && second.id == first.id && Possible(Next(s, first), second)
    requires second.now <= s.births[first.id].at + s.births[first.id].lifetime as real
    ensures var s1 := Next(s, first);
            && first.id in s1.pending
            && (second.now >= first.after + s1.pending[first.id].interval as real ==>
                  |CallsOf(Next(s1, second), first.id)| == |CallsOf(s1, first.id)| + 1)
  {
  }

  /** Nothing that is asked about one attempt changes another one, unless it has expired. */
  lemma OtherAttemptsStay(s: State, e: Event, other: PollId)
    requires Possible(s, e) && other != e.id
    ensures CallsOf(Next(s, e), other) == CallsOf(s, other)
    ensures other in s.pending && (e.EvCancel? || e.now <= s.pending[other].expiresAt) ==>
      other in Next(s, e).pending && Next(s, e).pending[other] == s.pending[other]
    ensures other in Next(s, e).pending ==> other in s.pending
  {
  }
}
