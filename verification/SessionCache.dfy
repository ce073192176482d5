/** The chat session cache over the database, on values: what each session-manager operation does
    to the stored transcripts and to the cached histories. */
module SessionCache {
  import opened Prelude

  type Sid = string

  /** A message, named by its identity; the text stored for it is not modelled. */
  type Msg = nat

  /** A session row: the denormalised `message_count` column and the message rows in timestamp order. */
  datatype Row = Row(column: int, messages: seq<Msg>)

  /** The cached session object of one id: its history and its `message_count` attribute. */
  datatype Cached = Cached(history: seq<Msg>, count: int)

  datatype Store = Store(rows: map<Sid, Row>, cache: map<Sid, Cached>)

  // ---- subsequences ----

  /** `a` can be obtained from `b` by leaving out elements. */
  predicate Subsequence(a: seq<Msg>, b: seq<Msg>)
    decreases |b|
  {
    || a == []
    || (b != [] &&
        var b' := b[..|b| - 1];
        || Subsequence(a, b')
        || (a[|a| - 1] == b[|b| - 1] && Subsequence(a[..|a| - 1], b')))
  }

  lemma {:induction false} SubsequenceRefl(a: seq<Msg>)
    ensures Subsequence(a, a)
    decreases |a|
  {
    if a != [] {
      SubsequenceRefl(a[..|a| - 1]);
    }
  }

  /** A subsequence is no longer, and one of full length is the whole. */
  lemma {:induction false} SubsequenceLength(a: seq<Msg>, b: seq<Msg>)
    requires Subsequence(a, b)
    ensures |a| <= |b|
    ensures |a| == |b| ==> a == b
    decreases |b|
  {
    if a != [] {
      var a', b' := a[..|a| - 1], b[..|b| - 1];
      if Subsequence(a, b') {
        SubsequenceLength(a, b');
      } else {
        SubsequenceLength(a', b');
        assert a == a' + [a[|a| - 1]] && b == b' + [b[|b| - 1]];
      }
    }
  }

  lemma SubsequenceAppend(a: seq<Msg>, b: seq<Msg>, m: Msg)
    requires Subsequence(a, b)
    ensures Subsequence(a, b + [m])
    ensures Subsequence(a + [m], b + [m])
  {
    assert (b + [m])[..|b + [m]| - 1] == b;
    assert (a + [m])[..|a + [m]| - 1] == a;
  }

  // ---- operations ----

  /** Hydration from the database: a session without messages keeps the column as its count. */
  function Load(s: Store, sid: Sid): Store
    requires sid in s.rows
  {
    var row := s.rows[sid];
    var loaded := if row.messages == [] then Cached([], row.column) else Cached(row.messages, |row.messages|);
    s.(cache := s.cache[sid := loaded])
  }

  /** Reconciling the cached count with the stored rows. */
  function Sync(s: Store, sid: Sid): Store {
    if sid in s.cache && sid in s.rows
    then s.(cache := s.cache[sid := s.cache[sid].(count := |s.rows[sid].messages|)])
    else s
  }

  /** The session was found, or a `KeyError` was raised; `loads` is how often the transcript was read. */
  datatype GetResult = GetResult(store: Store, found: bool, loads: nat)

  function Get(s: Store, sid: Sid): GetResult {
    if sid !in s.cache && sid !in s.rows then GetResult(s, false, 0)
    else
      var loads := if sid in s.cache then 0 else 1;
      var s1 := Sync(if sid in s.cache then s else Load(s, sid), sid);
      var cached := s1.cache[sid];
      if |cached.history| >= cached.count then GetResult(s1, true, loads)
      else if sid !in s1.rows then GetResult(s1, false, loads)
      else GetResult(Load(s1, sid), true, loads + 1)
  }

  /** Storing one message; `saved` is whether the insert succeeds. */
  function Persist(s: Store, sid: Sid, m: Msg, saved: bool): Store {
    if sid !in s.rows then s.(cache := s.cache - {sid})
    else if !saved then s
    else
      var column := if sid in s.cache then |s.cache[sid].history| else 0;
      s.(rows := s.rows[sid := Row(column, s.rows[sid].messages + [m])])
  }

  function Append(s: Store, sid: Sid, m: Msg): Store
    requires sid in s.cache
  {
    var history := s.cache[sid].history + [m];
    s.(cache := s.cache[sid := Cached(history, |history|)])
  }

  function AddMessage(s: Store, sid: Sid, m: Msg, saved: bool): Store {
    var got := Get(s, sid);
    if got.found then Persist(Append(got.store, sid, m), sid, m, saved) else got.store
  }

  /** `Session.add_message` on the cached object: it appends without hydrating first. */
  function AddOnCached(s: Store, sid: Sid, m: Msg, saved: bool): Store
    requires sid in s.cache
  {
    Persist(Append(s, sid, m), sid, m, saved)
  }

  /** `Session.add_message` on an object that is no longer the cached one of its id. */
  function AddOnDetached(s: Store, sid: Sid, m: Msg, saved: bool): Store {
    Persist(s, sid, m, saved)
  }

  function Min(a: int, b: int): int {
    if a <= b then a else b
  }

  function Take(xs: seq<Msg>, n: nat): seq<Msg> {
    xs[..Min(n, |xs|)]
  }

  function Truncate(s: Store, sid: Sid, keep: int, saved: bool): Store {
    var got := Get(s, sid);
    if !got.found || keep < 0 || !saved then got.store
    else
      var s1 := got.store;
      var s2 := if sid !in s1.rows then s1
                else
                  var kept := Take(s1.rows[sid].messages, keep);
                  s1.(rows := s1.rows[sid := Row(|kept|, kept)]);
      s2.(cache := s2.cache[sid := s2.cache[sid].(history := Take(s2.cache[sid].history, keep))])
  }

  function Replace(s: Store, sid: Sid, messages: seq<Msg>, saved: bool): Store {
    var got := Get(s, sid);
    if !got.found || sid !in got.store.rows || !saved then got.store
    else
      got.store.(rows := got.store.rows[sid := Row(|messages|, messages)],
                 cache := got.store.cache[sid := Cached(messages, |messages|)])
  }

  /** How a deletion's transaction ends: a failing commit comes after the cache entry is dropped. */
  datatype Ending = Committed | FailedEarly | FailedAtCommit

  function Delete(s: Store, sid: Sid, ending: Ending): Store {
    match ending
    case Committed => Store(s.rows - {sid}, s.cache - {sid})
    case FailedEarly => s
    case FailedAtCommit => s.(cache := s.cache - {sid})
  }

  function Create(s: Store, sid: Sid, saved: bool): Store {
    if sid in s.rows || !saved then s
    else Store(s.rows[sid := Row(0, [])], s.cache[sid := Cached([], 0)])
  }

  /** A fresh manager over the same database: stubs without history for the `chosen` sessions. */
  function Startup(rows: map<Sid, Row>, chosen: set<Sid>): Store {
    Store(rows, map sid | sid in chosen && sid in rows && rows[sid].messages != [] ::
                  Cached([], |rows[sid].messages|))
  }

  lemma StartupOne(rows: map<Sid, Row>, chosen: set<Sid>, sid: Sid)
    ensures Startup(rows, chosen + {sid})
         == if sid in rows && rows[sid].messages != []
            then Store(rows, Startup(rows, chosen).cache[sid := Cached([], |rows[sid].messages|)])
            else Startup(rows, chosen)
  {
    assert Startup(rows, chosen + {sid}).cache
        == if sid in rows && rows[sid].messages != []
           then Startup(rows, chosen).cache[sid := Cached([], |rows[sid].messages|)]
           else Startup(rows, chosen).cache;
  }

  datatype Op =
    | OpGet(sid: Sid)
    | OpAdd(sid: Sid, m: Msg)
    | OpAddOnCached(sid: Sid, m: Msg)
    | OpAddOnDetached(sid: Sid, m: Msg)
    | OpTruncate(sid: Sid, keep: int, saved: bool)
    | OpReplace(sid: Sid, messages: seq<Msg>, saved: bool)
    | OpDelete(sid: Sid, ending: Ending)
    | OpCreate(sid: Sid, saved: bool)
    | OpRestart(chosen: set<Sid>)
    | OpDriftColumn(sid: Sid, column: int)

  /** One operation of a run in which no message insert fails; the other writes may fail. */
  function Apply(s: Store, op: Op): Store {
    match op
    case OpGet(sid) => Get(s, sid).store
    case OpAdd(sid, m) => AddMessage(s, sid, m, true)
    case OpAddOnCached(sid, m) => if sid in s.cache then AddOnCached(s, sid, m, true) else s
    case OpAddOnDetached(sid, m) => AddOnDetached(s, sid, m, true)
    case OpTruncate(sid, keep, saved) => Truncate(s, sid, keep, saved)
    case OpReplace(sid, messages, saved) => Replace(s, sid, messages, saved)
    case OpDelete(sid, ending) => Delete(s, sid, ending)
    case OpCreate(sid, saved) => Create(s, sid, saved)
    case OpRestart(chosen) => Startup(s.rows, chosen)
    case OpDriftColumn(sid, column) =>
      if sid in s.rows then s.(rows := s.rows[sid := s.rows[sid].(column := column)]) else s
  }

  function Run(s: Store, ops: seq<Op>): Store
    decreases |ops|
  {
    if ops == [] then s else Apply(Run(s, ops[..|ops| - 1]), ops[|ops| - 1])
  }

  // ---- the invariant the length test rests on ----

  /** The cached history of a session with a row never shows anything the row does not hold. */
  predicate Agrees(s: Store) {
    forall sid | sid in s.cache && sid in s.rows :: Subsequence(s.cache[sid].history, s.rows[sid].messages)
  }

  /** `get_session` returns exactly the stored transcript, whatever the column says, leaves the
      stored rows alone, and an immediate second call reads no transcript and changes nothing. */
  lemma GetReturnsTranscript(s: Store, sid: Sid)
    requires Agrees(s) && sid in s.rows
    ensures var got := Get(s, sid);
            && got.found && got.store.rows == s.rows
            && sid in got.store.cache
            && got.store.cache[sid] == Cached(s.rows[sid].messages, |s.rows[sid].messages|)
            && Get(got.store, sid) == GetResult(got.store, true, 0)
  {
    var got := Get(s, sid);
    if sid in s.cache {
      SubsequenceLength(s.cache[sid].history, s.rows[sid].messages);
    }
    assert got.store.cache[sid] == Cached(s.rows[sid].messages, |s.rows[sid].messages|);
    assert Sync(got.store, sid).cache == got.store.cache;
  }

  lemma GetKeepsAgreement(s: Store, sid: Sid)
    requires Agrees(s)
    ensures Agrees(Get(s, sid).store) && Get(s, sid).store.rows == s.rows
    ensures forall other | other != sid && other in Get(s, sid).store.cache ::
              other in s.cache && Get(s, sid).store.cache[other] == s.cache[other]
  {
    if sid in s.rows {
      GetReturnsTranscript(s, sid);
      SubsequenceRefl(s.rows[sid].messages);
    }
  }

  lemma PersistKeepsAgreement(s: Store, sid: Sid, m: Msg)
    requires Agrees(s)
    ensures Agrees(Persist(s, sid, m, true))
    ensures sid in s.cache ==> Agrees(Persist(Append(s, sid, m), sid, m, true))
  {
    if sid in s.cache && sid in s.rows {
      SubsequenceAppend(s.cache[sid].history, s.rows[sid].messages, m);
    }
  }

  lemma ReplaceAndTruncateKeepAgreement(s: Store, sid: Sid, messages: seq<Msg>, keep: int, saved: bool)
    requires Agrees(s)
    ensures Agrees(Replace(s, sid, messages, saved)) && Agrees(Truncate(s, sid, keep, saved))
  {
    GetKeepsAgreement(s, sid);
    SubsequenceRefl(messages);
    if sid in s.rows {
      GetReturnsTranscript(s, sid);
      if keep >= 0 {
        SubsequenceRefl(Take(s.rows[sid].messages, keep));
      }
    }
  }

  lemma StepKeepsAgreement(s: Store, op: Op)
    requires Agrees(s)
    ensures Agrees(Apply(s, op))
  {
    match op
    case OpGet(sid) => GetKeepsAgreement(s, sid);
    case OpAdd(sid, m) =>
      GetKeepsAgreement(s, sid);
      PersistKeepsAgreement(Get(s, sid).store, sid, m);
    case OpAddOnCached(sid, m) => PersistKeepsAgreement(s, sid, m);
    case OpAddOnDetached(sid, m) => PersistKeepsAgreement(s, sid, m);
    case OpTruncate(sid, keep, saved) => ReplaceAndTruncateKeepAgreement(s, sid, [], keep, saved);
    case OpReplace(sid, messages, saved) => ReplaceAndTruncateKeepAgreement(s, sid, messages, 0, saved);
    case _ =>
  }

  /** Cache agreement over whole runs: from any startup, after any operations on any sessions,
      detached objects and drifted columns included, `get_session` returns the stored transcript. */
  lemma {:induction false} RunKeepsAgreement(rows: map<Sid, Row>, chosen: set<Sid>, ops: seq<Op>, sid: Sid)
    ensures var s := Run(Startup(rows, chosen), ops);
            && Agrees(s)
            && (sid in s.rows ==>
                  && Get(s, sid).found && sid in Get(s, sid).store.cache
                  && Get(s, sid).store.cache[sid].history == s.rows[sid].messages)
    decreases |ops|
  {
    var s := Run(Startup(rows, chosen), ops);
    if ops != [] {
      RunKeepsAgreement(rows, chosen, ops[..|ops| - 1], sid);
      StepKeepsAgreement(Run(Startup(rows, chosen), ops[..|ops| - 1]), ops[|ops| - 1]);
    }
    if sid in s.rows {
      GetReturnsTranscript(s, sid);
    }
  }

  /** Whichever object a message is added through, a warm one, a stub that has hydrated nothing or
      a detached one, the next read shows the old transcript followed by the message. */
  lemma AddedMessageIsReturned(s: Store, op: Op)
    requires Agrees(s) && (op.OpAdd? || op.OpAddOnDetached? || (op.OpAddOnCached? && op.sid in s.cache))
    requires op.sid in s.rows
    ensures var s1 := Apply(s, op);
            && op.sid in s1.rows && s1.rows[op.sid].messages == s.rows[op.sid].messages + [op.m]
            && Get(s1, op.sid).found && op.sid in Get(s1, op.sid).store.cache
            && Get(s1, op.sid).store.cache[op.sid].history == s.rows[op.sid].messages + [op.m]
  {
    GetReturnsTranscript(s, op.sid);
    StepKeepsAgreement(s, op);
    GetReturnsTranscript(Apply(s, op), op.sid);
  }

  // ---- reading back what was written ----

  /** A read after `s` shows exactly `messages`. */
  predicate Shows(s: Store, sid: Sid, messages: seq<Msg>) {
    && sid in s.rows && s.rows[sid].messages == messages
    && Get(s, sid).found && sid in Get(s, sid).store.cache && Get(s, sid).store.cache[sid].history == messages
  }

  /** Truncation keeps the oldest messages: the stored transcript becomes its own beginning, of the
      length asked for or all of it, its column counts it, and the next read shows exactly that. */
  lemma TruncatedShowsBeginning(s: Store, sid: Sid, keep: int)
    requires Agrees(s) && sid in s.rows && keep >= 0
    ensures var s1 := Truncate(s, sid, keep, true);
            && sid in s1.rows && s1.rows[sid].messages <= s.rows[sid].messages
            && |s1.rows[sid].messages| == Min(keep, |s.rows[sid].messages|) == s1.rows[sid].column
            && Shows(s1, sid, s1.rows[sid].messages)
    ensures Truncate(s, sid, -1 - keep, true).rows == s.rows == Truncate(s, sid, keep, false).rows
  {
    GetReturnsTranscript(s, sid);
    ReplaceAndTruncateKeepAgreement(s, sid, [], keep, true);
    GetReturnsTranscript(Truncate(s, sid, keep, true), sid);
  }

  lemma TruncatedRows(s: Store, sid: Sid, keep: int)
    requires Agrees(s) && sid in s.rows && keep >= 0
    ensures var kept := Take(s.rows[sid].messages, keep);
            Truncate(s, sid, keep, true).rows == s.rows[sid := Row(|kept|, kept)]
  {
    GetReturnsTranscript(s, sid);
  }

  /** Truncating twice is truncating once, to the shorter length. */
  lemma TruncationsCompose(s: Store, sid: Sid, j: int, k: int)
    requires Agrees(s) && sid in s.rows && j >= 0 && k >= 0
    ensures Truncate(Truncate(s, sid, j, true), sid, k, true).rows == Truncate(s, sid, Min(j, k), true).rows
  {
    var messages := s.rows[sid].messages;
    TruncatedRows(s, sid, j);
    TruncatedRows(s, sid, Min(j, k));
    ReplaceAndTruncateKeepAgreement(s, sid, [], j, true);
    TruncatedRows(Truncate(s, sid, j, true), sid, k);
    assert Take(Take(messages, j), k) == Take(messages, Min(j, k));
  }

  /** A replacement shows the new messages and counts them; one that fails shows the old ones. */
  lemma ReplacedShows(s: Store, sid: Sid, messages: seq<Msg>, saved: bool)
    requires Agrees(s) && sid in s.rows
    ensures var s1 := Replace(s, sid, messages, saved);
            && Shows(s1, sid, if saved then messages else s.rows[sid].messages)
            && (saved ==> s1.rows[sid].column == |messages|)
  {
    GetReturnsTranscript(s, sid);
    ReplaceAndTruncateKeepAgreement(s, sid, messages, 0, saved);
    GetReturnsTranscript(Replace(s, sid, messages, saved), sid);
  }

  /** Adding through the manager keeps the column exact, too. */
  lemma AddedIsCounted(s: Store, sid: Sid, m: Msg)
    requires Agrees(s) && sid in s.rows
    ensures var s1 := AddMessage(s, sid, m, true);
            sid in s1.rows && s1.rows[sid].column == |s1.rows[sid].messages| == |s.rows[sid].messages| + 1
  {
    GetReturnsTranscript(s, sid);
  }

  /** A new session is there, and empty; one that exists is not overwritten. */
  lemma CreatedShows(s: Store, sid: Sid)
    requires Agrees(s)
    ensures Shows(Create(s, sid, true), sid, if sid in s.rows then s.rows[sid].messages else [])
  {
    assert Agrees(Create(s, sid, true));
    GetReturnsTranscript(Create(s, sid, true), sid);
  }

  /** The session an operation is about; a restart is about none. */
  function About(op: Op): Option<Sid> {
    if op.OpRestart? then None else Some(op.sid)
  }

  /** The row of `sid` is the same in both. */
  predicate SameRow(s: Store, s1: Store, sid: Sid) {
    && (sid in s1.rows <==> sid in s.rows)
    && (sid in s.rows ==> s1.rows[sid] == s.rows[sid])
  }

  predicate SameSession(s: Store, s1: Store, sid: Sid) {
    && SameRow(s, s1, sid)
    && (sid in s1.cache <==> sid in s.cache)
    && (sid in s.cache ==> s1.cache[sid] == s.cache[sid])
  }

  lemma GetLeavesOthers(s: Store, sid: Sid, other: Sid)
    requires sid != other
    ensures SameSession(s, Get(s, sid).store, other)
  {
  }

  /** No operation touches the stored messages or the cached object of another session. */
  lemma OtherSessionsStay(s: Store, op: Op, other: Sid)
    requires About(op) != Some(other)
    ensures if op.OpRestart? then SameRow(s, Apply(s, op), other) else SameSession(s, Apply(s, op), other)
  {
    if !op.OpRestart? {
      GetLeavesOthers(s, op.sid, other);
    }
  }

  predicate Gone(s: Store, sid: Sid) {
    sid !in s.rows && sid !in s.cache
  }

  /** A deleted session is gone, and no write that comes too late brings it back: whatever happens
      short of a creation, reading it fails and nothing is stored for it. */
  lemma {:induction false} DeletedStaysGone(s: Store, sid: Sid, ops: seq<Op>)
    requires forall k | 0 <= k < |ops| :: !(ops[k].OpCreate? && ops[k].sid == sid)
    ensures Gone(Delete(s, sid, Committed), sid)
    ensures Gone(Run(Delete(s, sid, Committed), ops), sid)
    ensures !Get(Run(Delete(s, sid, Committed), ops), sid).found
    decreases |ops|
  {
    if ops != [] {
      DeletedStaysGone(s, sid, ops[..|ops| - 1]);
      GoneStaysGone(Run(Delete(s, sid, Committed), ops[..|ops| - 1]), sid, ops[|ops| - 1]);
    }
  }

  lemma GoneStaysGone(s: Store, sid: Sid, op: Op)
    requires Gone(s, sid) && !(op.OpCreate? && op.sid == sid)
    ensures Gone(Apply(s, op), sid)
  {
  }

  /** A late write for a session that has lost its row also drops the cached object that outlived it. */
  lemma LateWriteDropsGhost(s: Store, sid: Sid, m: Msg, saved: bool)
    requires sid in s.cache && sid !in s.rows
    ensures Gone(AddOnCached(s, sid, m, saved), sid) && Gone(AddOnDetached(s, sid, m, saved), sid)
    ensures Get(s, sid).found ==> Gone(AddMessage(s, sid, m, saved), sid)
  {
  }

  /** A deletion that does not commit loses nothing that is stored. */
  lemma FailedDeletionLosesNothing(s: Store, sid: Sid, ending: Ending)
    requires Agrees(s) && sid in s.rows && !ending.Committed?
    ensures Shows(Delete(s, sid, ending), sid, s.rows[sid].messages)
  {
    GetReturnsTranscript(Delete(s, sid, ending), sid);
  }

  // ---- without that invariant: failed inserts ----

  /** A read at this moment returns the stored transcript. */
  predicate ReadsRight(s: Store, sid: Sid)
    requires sid in s.rows
  {
    var got := Get(s, sid);
    got.found && sid in got.store.cache && got.store.cache[sid].history == s.rows[sid].messages
  }

  /** What the length test notices, for any cache over any rows: a read is right exactly when the
      session is not cached, or its history is shorter than the rows, or there is nothing to notice. */
  lemma ReadIsRightWhen(s: Store, sid: Sid)
    requires sid in s.rows
    ensures ReadsRight(s, sid)
        <==> || sid !in s.cache
             || |s.cache[sid].history| < |s.rows[sid].messages|
             || s.cache[sid].history == s.rows[sid].messages
  {
    var got := Get(s, sid);
    if sid !in s.cache {
      assert got.store.cache[sid].history == s.rows[sid].messages;
    }
  }

  /** A message whose insert fails in `add_message` makes the next read wrong, whatever the state
      before; after a right read it shows the message behind the stored transcript. */
  lemma FailedInsertMisleadsNextRead(s: Store, sid: Sid, m: Msg)
    requires sid in s.rows
    ensures var s1 := AddMessage(s, sid, m, false);
            && s1.rows == s.rows && !ReadsRight(s1, sid)
            && (ReadsRight(s, sid) ==>
                  && sid in Get(s1, sid).store.cache
                  && Get(s1, sid).store.cache[sid].history == s.rows[sid].messages + [m])
  {
    ReadIsRightWhen(s, sid);
    ReadIsRightWhen(AddMessage(s, sid, m, false), sid);
  }

  /** Through a cached object, which may be a stub, the next read after a failed insert is right
      exactly when the object was at least two messages short. */
  lemma FailedInsertOnCachedIsNoticedWhen(s: Store, sid: Sid, m: Msg)
    requires sid in s.rows && sid in s.cache && m !in s.rows[sid].messages
    ensures AddOnCached(s, sid, m, false).rows == s.rows
    ensures ReadsRight(AddOnCached(s, sid, m, false), sid)
        <==> |s.cache[sid].history| + 1 < |s.rows[sid].messages|
  {
    var s1 := AddOnCached(s, sid, m, false);
    ReadIsRightWhen(s1, sid);
    assert s1.cache[sid].history[|s.cache[sid].history|] == m;
  }

  /** Messages stored one after the other through detached objects. */
  function AddAllOnDetached(s: Store, sid: Sid, ms: seq<Msg>): Store
    decreases |ms|
  {
    if ms == [] then s else AddAllOnDetached(AddOnDetached(s, sid, ms[0], true), sid, ms[1..])
  }

  lemma {:induction false} DetachedAddsAreStored(s: Store, sid: Sid, ms: seq<Msg>)
    requires sid in s.rows
    ensures var s' := AddAllOnDetached(s, sid, ms);
            && sid in s'.rows && s'.cache == s.cache
            && s'.rows[sid].messages == s.rows[sid].messages + ms
    decreases |ms|
  {
    if ms != [] {
      DetachedAddsAreStored(AddOnDetached(s, sid, ms[0], true), sid, ms[1..]);
    }
  }

  /** A failed insert is noticed later exactly when two more messages have been stored behind the
      cache's back; only then is the lost message gone from view. */
  lemma FailedInsertIsNoticedLaterWhen(s: Store, sid: Sid, m: Msg, ms: seq<Msg>)
    requires sid in s.rows && ReadsRight(s, sid) && m !in ms
    ensures var s' := AddAllOnDetached(AddMessage(s, sid, m, false), sid, ms);
            sid in s'.rows && (ReadsRight(s', sid) <==> |ms| >= 2)
  {
    var s1 := AddMessage(s, sid, m, false);
    var s' := AddAllOnDetached(s1, sid, ms);
    ReadIsRightWhen(s, sid);
    DetachedAddsAreStored(s1, sid, ms);
    ReadIsRightWhen(s', sid);
    if |ms| == 1 {
      assert s'.rows[sid].messages[|s.rows[sid].messages|] == ms[0];
    }
  }
}
