/** Moving many messages between two IMAP folders over a server that may answer OK without
    acting, act on any part of a request, refuse any command or drop the connection. */
module BulkMove {
  import opened Prelude

  /** A message is named by the UID it has in the source folder; UIDs are never reused
      (section 2.3.1.1 of RFC 3501). */
  type Uid = nat

  /** `source` and `flagged` are the messages in the source folder and those of them marked
      deleted; `dest` are the messages of which the destination folder holds a copy. */
  datatype Mail = Mail(source: set<Uid>, flagged: set<Uid>, dest: set<Uid>)

  datatype Command =
    | Select
    | Fetch(uids: set<Uid>)
    | Move(uids: set<Uid>)
    | Copy(uids: set<Uid>)
    | FlagDeleted(uids: set<Uid>)
    | Expunge

  /** `Raised` is an exception in the client, after which the server may still have acted. */
  datatype Reply = OK | NO | Raised

  /** What the server may do on a command.  Two things are relied on: a COPY answered OK has
      copied (section 6.4.7 of RFC 3501), and one message is moved as a whole (section 3.3 of
      RFC 6851). */
  ghost predicate Step(m: Mail, c: Command, reply: Reply, m': Mail) {
    match c
    case Select => m' == m
    case Fetch(_) => m' == m
    case Move(uids) =>
      var moved := m.source - m'.source;
      && moved <= uids
      && m' == Mail(m.source - moved, m.flagged - moved, m.dest + moved)
    case Copy(uids) =>
      && m'.source == m.source && m'.flagged == m.flagged
      && m.dest <= m'.dest <= m.dest + uids * m.source
      && (reply == OK ==> uids * m.source <= m'.dest)
    case FlagDeleted(uids) =>
      && m'.source == m.source && m'.dest == m.dest
      && m.flagged <= m'.flagged <= m.flagged + uids * m.source
    case Expunge =>
      var removed := m.source - m'.source;
      && removed <= m.flagged
      && m' == Mail(m.source - removed, m.flagged - removed, m.dest)
  }

  /** The UIDs a FETCH names: those asked for that are there, and none when it is refused. */
  function Found(m: Mail, uids: set<Uid>, reply: Reply): set<Uid> {
    if reply == OK then uids * m.source else {}
  }

  /** No message that was in the source folder is gone from both folders, except one that
      somebody else had already marked deleted. */
  ghost predicate NothingLost(start: Mail, m: Mail) {
    start.source - start.flagged <= m.source + m.dest
  }

  /** Only requested messages have been copied or moved. */
  ghost predicate OnlyRequested(start: Mail, requested: set<Uid>, m: Mail) {
    && m.source <= start.source
    && m.dest <= start.dest + requested * start.source
    && start.source - requested - start.flagged <= m.source
  }

  /** The key invariant: whatever this call has flagged has been copied, and was requested. */
  ghost predicate Safe(start: Mail, requested: set<Uid>, m: Mail) {
    && NothingLost(start, m)
    && OnlyRequested(start, requested, m)
    && m.flagged <= start.flagged + m.dest * requested
  }

  /** The discipline under which a command keeps `Safe`. */
  ghost predicate Allowed(requested: set<Uid>, m: Mail, c: Command) {
    match c
    case Select => true
    case Expunge => true
    case Fetch(_) => true
    case FlagDeleted(uids) => uids <= requested && uids * m.source <= m.dest
    case _ => c.uids <= requested
  }

  lemma StepKeepsSafe(start: Mail, requested: set<Uid>, m: Mail, c: Command, reply: Reply, m': Mail)
    requires Safe(start, requested, m) && Allowed(requested, m, c) && Step(m, c, reply, m')
    ensures Safe(start, requested, m')
  {
    match c
    case Expunge =>
      assert m.source - m'.source <= m.flagged;
    case _ =>
  }

  /** Flagging a message that was not copied is what would lose it. */
  lemma UncopiedFlagCanLose(m: Mail, u: Uid) returns (flagged: Mail, gone: Mail)
    requires u in m.source && u !in m.dest && u !in m.flagged
    ensures Step(m, FlagDeleted({u}), OK, flagged) && Step(flagged, Expunge, OK, gone)
    ensures !NothingLost(m, gone)
  {
    flagged := m.(flagged := m.flagged + {u});
    gone := Mail(m.source - {u}, m.flagged, m.dest);
    assert flagged.source - gone.source == {u};
    assert u in m.source - m.flagged;
  }

  // ---- one call, as the client sees it ----

  datatype Entry = Entry(command: Command, reply: Reply, after: Mail)

  function MailAfter(start: Mail, log: seq<Entry>): Mail {
    if log == [] then start else log[|log| - 1].after
  }

  /** Everything in `log` is something that a server can do. */
  ghost predicate Genuine(start: Mail, log: seq<Entry>)
    decreases |log|
  {
    log != [] ==>
      var rest, e := log[..|log| - 1], log[|log| - 1];
      Genuine(start, rest) && Step(MailAfter(start, rest), e.command, e.reply, e.after)
  }

  /** What the client learns from an answer besides its status. */
  function FoundIn(e: Entry): set<Uid> {
    if e.command.Fetch? then Found(e.after, e.command.uids, e.reply) else {}
  }

  /** How a call ended: with an exception, with nothing found, by giving up after a refusal, or after
      the closing check, with that check's reply. */
  datatype Exit = Aborted | NothingFound | GaveUp | Checked(reply: Reply)

  /** Where the client is.  There are four rounds of SELECT and FETCH; `existing` is what the first one
      found, `todo` are the messages still to be retried one by one. */
  datatype Client =
    | Selecting(round: nat, existing: set<Uid>)
    | Fetching(round: nat, existing: set<Uid>)
    | Moving(existing: set<Uid>)
    | Copying(existing: set<Uid>)
    | Flagging(existing: set<Uid>)
    | Expunging(existing: set<Uid>)
    | MovingOne(existing: set<Uid>, todo: seq<Uid>)
    | CopyingOne(existing: set<Uid>, todo: seq<Uid>, copiedAny: bool)
    | FlaggingOne(existing: set<Uid>, todo: seq<Uid>, copiedAny: bool)
    | ExpungingOne(existing: set<Uid>)
    | Ended(exit: Exit, counted: set<Uid>)

  function Requested(uids: seq<Uid>): set<Uid> {
    set u | u in uids
  }

  /** The requested messages that are still there, in the order of the request. */
  function Pending(uids: seq<Uid>, remaining: set<Uid>): seq<Uid> {
    if uids == [] then []
    else if uids[0] in remaining then [uids[0]] + Pending(uids[1..], remaining)
    else Pending(uids[1..], remaining)
  }

  lemma PendingFrom(uids: seq<Uid>, remaining: set<Uid>, i: nat)
    requires i < |uids|
    ensures Pending(uids[i..], remaining)
         == if uids[i] in remaining then [uids[i]] + Pending(uids[i + 1..], remaining)
            else Pending(uids[i + 1..], remaining)
  {
    assert uids[i..][1..] == uids[i + 1..];
  }

  function Begin(uids: seq<Uid>): Client {
    if uids == [] then Ended(NothingFound, {}) else Selecting(1, {})
  }

  function Abort(): Client {
    Ended(Aborted, {})
  }

  function ToMove(existing: set<Uid>, todo: seq<Uid>): Client {
    if todo == [] then Selecting(3, existing) else MovingOne(existing, todo)
  }

  function ToCopy(existing: set<Uid>, todo: seq<Uid>, copiedAny: bool): Client {
    if todo != [] then CopyingOne(existing, todo, copiedAny)
    else if copiedAny then ExpungingOne(existing)
    else Selecting(4, existing)
  }

  /** The command the client sends next. */
  function Wants(uids: seq<Uid>, c: Client): Option<Command> {
    match c
    case Selecting(_, _) => Some(Select)
    case Fetching(_, _) => Some(Fetch(Requested(uids)))
    case Moving(_) => Some(Move(Requested(uids)))
    case Copying(_) => Some(Copy(Requested(uids)))
    case Flagging(_) => Some(FlagDeleted(Requested(uids)))
    case Expunging(_) => Some(Expunge)
    case MovingOne(_, todo) => if todo == [] then None else Some(Move({todo[0]}))
    case CopyingOne(_, todo, _) => if todo == [] then None else Some(Copy({todo[0]}))
    case FlaggingOne(_, todo, _) => if todo == [] then None else Some(FlagDeleted({todo[0]}))
    case ExpungingOne(_) => Some(Expunge)
    case Ended(_, _) => None
  }

  /** Where the client goes on an answer; an exception ends the call, except in the first FETCH. */
  function Observe(uids: seq<Uid>, c: Client, reply: Reply, found: set<Uid>): Client {
    match c
    case Selecting(round, existing) => if reply == Raised then Abort() else Fetching(round, existing)
    case Fetching(round, existing) =>
      if round == 1 then if found == {} then Ended(NothingFound, {}) else Moving(found)
      else if reply == Raised then Abort()
      else if round == 2 then ToMove(existing, Pending(uids, found))
      else if round == 3 then ToCopy(existing, Pending(uids, found), false)
      else Ended(Checked(reply), existing - found)
    case Moving(existing) =>
      if reply == Raised then Abort() else if reply == OK then Selecting(2, existing) else Copying(existing)
    case Copying(existing) =>
      if reply == Raised then Abort() else if reply == OK then Flagging(existing) else Ended(GaveUp, {})
    case Flagging(existing) =>
      if reply == Raised then Abort() else if reply == OK then Expunging(existing) else Ended(GaveUp, {})
    case Expunging(existing) => if reply == Raised then Abort() else Selecting(2, existing)
    case MovingOne(existing, todo) =>
      if reply == Raised || todo == [] then Abort() else ToMove(existing, todo[1..])
    case CopyingOne(existing, todo, copiedAny) =>
      if reply == Raised || todo == [] then Abort()
      else if reply == OK then FlaggingOne(existing, todo, copiedAny)
      else ToCopy(existing, todo[1..], copiedAny)
    case FlaggingOne(existing, todo, copiedAny) =>
      if reply == Raised || todo == [] then Abort()
      else ToCopy(existing, todo[1..], copiedAny || reply == OK)
    case ExpungingOne(existing) => if reply == Raised then Abort() else Selecting(4, existing)
    case Ended(_, _) => c
  }

  /** Where the client is after `log`; `None` if it would not have sent these commands. */
  function After(uids: seq<Uid>, log: seq<Entry>): Option<Client>
    decreases |log|
  {
    if log == [] then Some(Begin(uids))
    else
      var before, e := After(uids, log[..|log| - 1]), log[|log| - 1];
      if before.None? || Wants(uids, before.value) != Some(e.command) then None
      else Some(Observe(uids, before.value, e.reply, FoundIn(e)))
  }

  /** `log` is a whole call from `start`, which ended in `exit` and reports `counted` as moved. */
  ghost predicate IsCall(uids: seq<Uid>, start: Mail, log: seq<Entry>, exit: Exit, counted: set<Uid>) {
    Genuine(start, log) && After(uids, log) == Some(Ended(exit, counted))
  }

  /** The requested messages that have left the source since `start`. */
  function LeftSource(uids: seq<Uid>, start: Mail, now: Mail): set<Uid> {
    Requested(uids) * start.source - now.source
  }

  // ---- what holds wherever the client is ----

  predicate AllIn(todo: seq<Uid>, requested: set<Uid>) {
    forall i | 0 <= i < |todo| :: todo[i] in requested
  }

  lemma {:induction false} PendingIsRequested(uids: seq<Uid>, remaining: set<Uid>, requested: set<Uid>)
    requires AllIn(uids, requested)
    ensures AllIn(Pending(uids, remaining), requested)
  {
    if uids != [] {
      PendingIsRequested(uids[1..], remaining, requested);
    }
  }

  /** What the client has found is what was there, and before it marks anything deleted, its copy
      has been made. */
  ghost predicate ClientOk(uids: seq<Uid>, start: Mail, c: Client, now: Mail) {
    var requested := Requested(uids);
    var present := requested * start.source;
    match c
    case Selecting(round, existing) =>
      if round == 1 then now == start && existing == {} else round in {2, 3, 4} && existing == present != {}
    case Fetching(round, existing) =>
      if round == 1 then now == start && existing == {} else round in {2, 3, 4} && existing == present != {}
    case Flagging(existing) => existing == present != {} && requested * now.source <= now.dest
    case MovingOne(existing, todo) => existing == present != {} && AllIn(todo, requested)
    case CopyingOne(existing, todo, _) => existing == present != {} && AllIn(todo, requested)
    case FlaggingOne(existing, todo, _) =>
      && existing == present != {} && AllIn(todo, requested)
      && (todo != [] ==> {todo[0]} * now.source <= now.dest)
    case Ended(exit, counted) => Reported(exit, counted, present, start, now)
    case _ => c.existing == present != {}
  }

  ghost predicate Reported(exit: Exit, counted: set<Uid>, present: set<Uid>, start: Mail, now: Mail) {
    match exit
    case Aborted => counted == {}
    case NothingFound => counted == {} && now == start
    case GaveUp => counted == {} && present != {}
    case Checked(OK) => counted == present - now.source && present != {}
    case Checked(NO) => counted == present != {}
    case Checked(Raised) => false
  }

  lemma WantedIsAllowed(uids: seq<Uid>, start: Mail, c: Client, now: Mail)
    requires ClientOk(uids, start, c, now) && Wants(uids, c).Some?
    ensures Allowed(Requested(uids), now, Wants(uids, c).value)
  {
  }

  lemma ObserveKeepsOk(uids: seq<Uid>, start: Mail, c: Client, before: Mail, e: Entry)
    requires ClientOk(uids, start, c, before) && Wants(uids, c) == Some(e.command)
    requires Step(before, e.command, e.reply, e.after)
    ensures ClientOk(uids, start, Observe(uids, c, e.reply, FoundIn(e)), e.after)
  {
    assert AllIn(uids, Requested(uids));
    PendingIsRequested(uids, FoundIn(e), Requested(uids));
  }

  /** Nothing is lost, at no moment of no call, however the server behaves and wherever the call is:
      whatever it has marked deleted has been copied. */
  lemma {:induction false} CallIsSafe(uids: seq<Uid>, start: Mail, log: seq<Entry>)
    requires Genuine(start, log) && After(uids, log).Some?
    ensures Safe(start, Requested(uids), MailAfter(start, log))
    ensures forall k | 0 <= k < |log| :: Safe(start, Requested(uids), log[k].after)
    ensures ClientOk(uids, start, After(uids, log).value, MailAfter(start, log))
    decreases |log|
  {
    if log != [] {
      var rest, e := log[..|log| - 1], log[|log| - 1];
      CallIsSafe(uids, start, rest);
      var c, before := After(uids, rest).value, MailAfter(start, rest);
      WantedIsAllowed(uids, start, c, before);
      StepKeepsSafe(start, Requested(uids), before, e.command, e.reply, e.after);
      ObserveKeepsOk(uids, start, c, before, e);
      forall k | 0 <= k < |log| ensures Safe(start, Requested(uids), log[k].after) {
        if k < |rest| {
          assert log[k] == rest[k];
        }
      }
    }
  }

  // ---- what the report is worth ----

  /** Two calls that look the same to the client. */
  ghost predicate SameView(a: seq<Entry>, b: seq<Entry>) {
    |a| == |b| && forall k | 0 <= k < |a| :: LooksLike(a[k], b[k])
  }

  predicate LooksLike(a: Entry, b: Entry) {
    a.command == b.command && a.reply == b.reply && FoundIn(a) == FoundIn(b)
  }

  lemma {:induction false} SameViewSameClient(uids: seq<Uid>, a: seq<Entry>, b: seq<Entry>)
    requires SameView(a, b)
    ensures After(uids, a) == After(uids, b)
    decreases |a|
  {
    if a != [] {
      var a', b' := a[..|a| - 1], b[..|b| - 1];
      assert LooksLike(a[|a| - 1], b[|b| - 1]);
      forall k | 0 <= k < |a'| ensures LooksLike(a'[k], b'[k]) {
        assert LooksLike(a[k], b[k]);
      }
      SameViewSameClient(uids, a', b');
    }
  }

  /** A message that has left the source folder does not come back. */
  lemma {:induction false} SourceShrinks(start: Mail, log: seq<Entry>, k: nat)
    requires Genuine(start, log) && k < |log|
    ensures MailAfter(start, log).source <= log[k].after.source <= start.source
    decreases |log|
  {
    var rest, e := log[..|log| - 1], log[|log| - 1];
    assert e.after.source <= MailAfter(start, rest).source;
    if k < |rest| {
      SourceShrinks(start, rest, k);
    } else if rest != [] {
      SourceShrinks(start, rest, |rest| - 1);
    }
  }

  lemma GenuinePrefix(start: Mail, log: seq<Entry>, n: nat)
    requires Genuine(start, log) && n <= |log|
    ensures Genuine(start, log[..n])
    decreases |log|
  {
    if n < |log| {
      GenuinePrefix(start, log[..|log| - 1], n);
      assert log[..|log| - 1][..n] == log[..n];
    } else {
      assert log[..n] == log;
    }
  }

  predicate AnsweredFetch(e: Entry) {
    e.command.Fetch? && e.reply == OK
  }

  /** Some check was answered, and showed nothing. */
  predicate SawNothingLeft(log: seq<Entry>) {
    exists k | 0 <= k < |log| :: AnsweredFetch(log[k]) && FoundIn(log[k]) == {}
  }

  lemma {:induction false} FetchesAreForRequested(uids: seq<Uid>, log: seq<Entry>, k: nat)
    requires After(uids, log).Some? && k < |log| && log[k].command.Fetch?
    ensures log[k].command == Fetch(Requested(uids))
    decreases |log|
  {
    if k < |log| - 1 {
      FetchesAreForRequested(uids, log[..|log| - 1], k);
    }
  }

  /** The first commands of a call that is now at `c`. */
  predicate Opening(uids: seq<Uid>, log: seq<Entry>, c: Client) {
    var requested := Requested(uids);
    if c.Ended? && (c.exit.Aborted? || c.exit.NothingFound?) then true
    else if c.Selecting? && c.round == 1 then log == []
    else if c.Fetching? && c.round == 1 then |log| == 1 && log[0].command.Select?
    else
      && |log| >= 2 && log[0].command.Select? && AnsweredFetch(log[1]) && FoundIn(log[1]) != {}
      && (c.Moving? ==> |log| == 2)
      && (c.Copying? ==> |log| == 3 && log[2].command == Move(requested))
      && (c.Flagging? ==> |log| == 4 && log[2].command == Move(requested) && log[3].command == Copy(requested))
      && (c.Ended? && c.exit.GaveUp? ==>
            && 4 <= |log| <= 5 && log[2].command == Move(requested) && log[3].command == Copy(requested)
            && (|log| == 5 ==> log[4].command == FlagDeleted(requested)))
  }

  lemma {:induction false} CallsOpen(uids: seq<Uid>, log: seq<Entry>)
    requires After(uids, log).Some?
    ensures Opening(uids, log, After(uids, log).value)
    decreases |log|
  {
    if log != [] {
      CallsOpen(uids, log[..|log| - 1]);
    }
  }

  // The first other server: one that moves everything on the first MOVE.

  /** `log` with everything requested moved by its third command. */
  function AllMoved(uids: seq<Uid>, start: Mail, log: seq<Entry>): seq<Entry> {
    var gone := Requested(uids) * start.source;
    var moved := Mail(start.source - gone, start.flagged - gone, start.dest + gone);
    seq(|log|, k requires 0 <= k < |log| => log[k].(after := if k < 2 then start else moved))
  }

  lemma AllMovedStep(uids: seq<Uid>, start: Mail, reply: Reply)
    ensures var gone := Requested(uids) * start.source;
            var moved := Mail(start.source - gone, start.flagged - gone, start.dest + gone);
            && Step(start, Move(Requested(uids)), reply, moved)
            && Step(moved, Copy(Requested(uids)), reply, moved)
            && Step(moved, FlagDeleted(Requested(uids)), reply, moved)
  {
    var gone := Requested(uids) * start.source;
    var moved := Mail(start.source - gone, start.flagged - gone, start.dest + gone);
    assert start.source - moved.source == gone;
    assert Requested(uids) * moved.source == {};
  }

  lemma {:induction false} AllMovedIsGenuine(uids: seq<Uid>, start: Mail, log: seq<Entry>, n: nat)
    requires 2 <= |log| <= 5 && n <= |log|
    requires log[0].command.Select? && log[1].command.Fetch?
    requires |log| > 2 ==> log[2].command == Move(Requested(uids))
    requires |log| > 3 ==> log[3].command == Copy(Requested(uids))
    requires |log| > 4 ==> log[4].command == FlagDeleted(Requested(uids))
    ensures Genuine(start, AllMoved(uids, start, log)[..n])
  {
    if n > 0 {
      AllMovedIsGenuine(uids, start, log, n - 1);
      AllMovedStep(uids, start, log[n - 1].reply);
      var part := AllMoved(uids, start, log)[..n];
      assert part[..n - 1] == AllMoved(uids, start, log)[..n - 1];
    }
  }

  /** Whenever the client gives up, everything may have been moved. */
  lemma GivingUpCanMiscount(uids: seq<Uid>, start: Mail, log: seq<Entry>, counted: set<Uid>)
    returns (other: seq<Entry>)
    requires IsCall(uids, start, log, GaveUp, counted)
    ensures Genuine(start, other) && SameView(log, other)
    ensures counted != LeftSource(uids, start, MailAfter(start, other))
  {
    CallsOpen(uids, log);
    CallIsSafe(uids, start, log);
    other := AllMoved(uids, start, log);
    AllMovedIsGenuine(uids, start, log, |log|);
    assert other[..|log|] == other;
    FetchSeesStart(uids, start, log);
    forall k | 0 <= k < |log| ensures LooksLike(log[k], other[k]) {
    }
    var u :| u in Requested(uids) * start.source;
    assert u in LeftSource(uids, start, MailAfter(start, other));
  }

  /** The first FETCH shows what was there at the start. */
  lemma FetchSeesStart(uids: seq<Uid>, start: Mail, log: seq<Entry>)
    requires Genuine(start, log) && |log| >= 2 && log[0].command.Select? && log[1].command.Fetch?
    ensures log[0].after == start && log[1].after == start
  {
    GenuinePrefix(start, log, 1);
    GenuinePrefix(start, log, 2);
    assert log[..2][..1] == log[..1];
    assert log[..1][..0] == [];
  }

  // The second other server: one that keeps a single message.

  /** `log` on a server that never moves `u`, never marks it and copies it only when it says so. */
  function Kept(start: Mail, log: seq<Entry>, u: Uid): seq<Entry>
    decreases |log|
  {
    if log == [] then []
    else
      var rest, e := Kept(start, log[..|log| - 1], u), log[|log| - 1];
      var copied := u in MailAfter(start, rest).dest || (e.command.Copy? && e.reply == OK && u in e.command.uids);
      rest + [e.(after := Mail(e.after.source + {u}, With(e.after.flagged, u, u in start.flagged),
                               With(e.after.dest, u, copied)))]
  }

  function With(s: set<Uid>, u: Uid, present: bool): set<Uid> {
    if present then s + {u} else s - {u}
  }

  /** The same mail but for `u`, which is in the source and marked as it was at the start. */
  ghost predicate SameBut(u: Uid, start: Mail, m: Mail, kept: Mail) {
    && kept.source == m.source + {u}
    && kept.flagged == With(m.flagged, u, u in start.flagged)
    && kept.dest == With(m.dest, u, u in kept.dest)
  }

  lemma KeptStep(u: Uid, start: Mail, before: Mail, kept: Mail, e: Entry, after: Mail)
    requires SameBut(u, start, before, kept) && Step(before, e.command, e.reply, e.after)
    requires SameBut(u, start, e.after, after)
    requires u in after.dest <==>
      u in kept.dest || (e.command.Copy? && e.reply == OK && u in e.command.uids)
    ensures Step(kept, e.command, e.reply, after)
  {
    match e.command
    case Select => assert after.source == kept.source && after.flagged == kept.flagged && after.dest == kept.dest;
    case Fetch(_) => assert after.source == kept.source && after.flagged == kept.flagged && after.dest == kept.dest;
    case Move(uids) =>
      var moved := kept.source - after.source;
      assert moved == before.source - e.after.source - {u};
      assert after.source == kept.source - moved && after.flagged == kept.flagged - moved;
      assert after.dest == kept.dest + moved;
    case Copy(uids) =>
      assert after.source == kept.source && after.flagged == kept.flagged;
      assert kept.dest <= after.dest;
    case FlagDeleted(uids) => assert after.source == kept.source && after.dest == kept.dest;
    case Expunge =>
      var removed := kept.source - after.source;
      assert removed == before.source - e.after.source - {u};
      assert after.source == kept.source - removed && after.flagged == kept.flagged - removed;
      assert after.dest == kept.dest;
  }

  lemma {:induction false} KeptIsGenuine(start: Mail, log: seq<Entry>, u: Uid)
    requires Genuine(start, log) && u in start.source
    ensures var other := Kept(start, log, u);
            && |other| == |log| && Genuine(start, other)
            && SameBut(u, start, MailAfter(start, log), MailAfter(start, other))
            && forall k | 0 <= k < |log| ::
                 other[k].command == log[k].command && other[k].reply == log[k].reply
                 && other[k].after.source == log[k].after.source + {u}
    decreases |log|
  {
    if log != [] {
      var rest, e := log[..|log| - 1], log[|log| - 1];
      KeptIsGenuine(start, rest, u);
      var other := Kept(start, log, u);
      assert other[..|log| - 1] == Kept(start, rest, u);
      KeptStep(u, start, MailAfter(start, rest), MailAfter(start, Kept(start, rest, u)), e, other[|log| - 1].after);
    }
  }

  /** What the last answered check has shown was shown by every answered check before it. */
  lemma {:induction false} LastAnswered(uids: seq<Uid>, start: Mail, log: seq<Entry>, n: nat) returns (u: Uid)
    requires Genuine(start, log) && After(uids, log).Some? && n <= |log|
    requires exists k :: 0 <= k < n && AnsweredFetch(log[k])
    requires !SawNothingLeft(log)
    ensures u in Requested(uids)
    ensures forall k | 0 <= k < n && AnsweredFetch(log[k]) :: u in log[k].after.source
  {
    var e := log[n - 1];
    if AnsweredFetch(e) {
      u :| u in FoundIn(e);
      FetchesAreForRequested(uids, log, n - 1);
      GenuinePrefix(start, log, n);
      forall k | 0 <= k < n && AnsweredFetch(log[k]) ensures u in log[k].after.source {
        SourceShrinks(start, log[..n], k);
      }
    } else {
      u := LastAnswered(uids, start, log, n - 1);
    }
  }

  /** A call whose closing check was refused, and that has not seen before that nothing is left, may
      have left a message behind. */
  lemma RefusedCheckCanMiscount(uids: seq<Uid>, start: Mail, log: seq<Entry>, counted: set<Uid>)
    returns (other: seq<Entry>)
    requires IsCall(uids, start, log, Checked(NO), counted) && !SawNothingLeft(log)
    ensures Genuine(start, other) && SameView(log, other)
    ensures counted != LeftSource(uids, start, MailAfter(start, other))
  {
    CallsOpen(uids, log);
    CallIsSafe(uids, start, log);
    FetchSeesStart(uids, start, log);
    var u := LastAnswered(uids, start, log, |log|);
    assert u in log[1].after.source;
    other := Kept(start, log, u);
    KeptIsGenuine(start, log, u);
    forall k | 0 <= k < |log| ensures LooksLike(log[k], other[k]) {
      if AnsweredFetch(log[k]) {
        assert log[k].after.source + {u} == log[k].after.source;
      }
    }
    assert u in counted && u !in LeftSource(uids, start, MailAfter(start, other));
  }

  /** A call that has seen that nothing is left is right to report everything as moved. */
  lemma NothingLeftStays(uids: seq<Uid>, start: Mail, log: seq<Entry>)
    requires Genuine(start, log) && After(uids, log).Some? && SawNothingLeft(log)
    ensures LeftSource(uids, start, MailAfter(start, log)) == Requested(uids) * start.source
  {
    var k :| 0 <= k < |log| && AnsweredFetch(log[k]) && FoundIn(log[k]) == {};
    FetchesAreForRequested(uids, log, k);
    SourceShrinks(start, log, k);
    forall u | u in Requested(uids) * start.source
      ensures u in LeftSource(uids, start, MailAfter(start, log))
    {
      assert u !in FoundIn(log[k]);
    }
  }

  lemma SameViewSawNothingLeft(a: seq<Entry>, b: seq<Entry>)
    requires SameView(a, b) && SawNothingLeft(a)
    ensures SawNothingLeft(b)
  {
    var k :| 0 <= k < |a| && AnsweredFetch(a[k]) && FoundIn(a[k]) == {};
    assert LooksLike(a[k], b[k]);
  }

  predicate Trustworthy(log: seq<Entry>, exit: Exit) {
    exit.NothingFound? || exit == Checked(OK) || (exit == Checked(NO) && SawNothingLeft(log))
  }

  lemma TrustworthyReportIsRight(uids: seq<Uid>, start: Mail, log: seq<Entry>, exit: Exit, counted: set<Uid>)
    requires IsCall(uids, start, log, exit, counted) && Trustworthy(log, exit)
    ensures counted == LeftSource(uids, start, MailAfter(start, log))
  {
    CallIsSafe(uids, start, log);
    if exit == Checked(NO) {
      NothingLeftStays(uids, start, log);
    } else if exit.NothingFound? {
      assert LeftSource(uids, start, start) == {};
    }
  }

  /** The report of a call can be trusted, that is, whatever looks the same to the client it is
      exactly what left the source, if and only if the call found nothing at its start, or its closing
      check was answered, or that was refused after an earlier check had shown that nothing is left. */
  lemma ReportIsReliableWhen(uids: seq<Uid>, start: Mail, log: seq<Entry>, exit: Exit, counted: set<Uid>)
    requires IsCall(uids, start, log, exit, counted) && !exit.Aborted?
    ensures (forall other | Genuine(start, other) && SameView(log, other) ::
               counted == LeftSource(uids, start, MailAfter(start, other)))
        <==> Trustworthy(log, exit)
  {
    if Trustworthy(log, exit) {
      forall other | Genuine(start, other) && SameView(log, other)
        ensures counted == LeftSource(uids, start, MailAfter(start, other))
      {
        SameViewSameClient(uids, log, other);
        if exit == Checked(NO) {
          SameViewSawNothingLeft(log, other);
        }
        TrustworthyReportIsRight(uids, start, other, exit, counted);
      }
    } else if exit.GaveUp? {
      var other := GivingUpCanMiscount(uids, start, log, counted);
    } else {
      CallIsSafe(uids, start, log);
      var other := RefusedCheckCanMiscount(uids, start, log, counted);
    }
  }

  // ---- calls that show it ----

  /** Such a call exists wherever something requested is there: a server that acts on nothing and
      answers only the first check has everything reported as moved. */
  lemma RefusedCheckMiscounts(uids: seq<Uid>, start: Mail) returns (log: seq<Entry>)
    requires Requested(uids) * start.source != {}
    ensures IsCall(uids, start, log, Checked(NO), Requested(uids) * start.source)
    ensures LeftSource(uids, start, MailAfter(start, log)) == {}
  {
    var existing := Requested(uids) * start.source;
    var ignored := Entry(Move(Requested(uids)), OK, start);
    log := Opened(uids, start);
    assert start.source - start.source == {};
    assert start == Mail(start.source - {}, start.flagged - {}, start.dest + {});
    Sent(uids, start, log, ignored, Moving(existing));
    log := log + [ignored];
    NothingPending(uids);
    log := RefusedRound(uids, start, log, 2, existing);
    log := RefusedRound(uids, start, log, 3, existing);
    log := RefusedRound(uids, start, log, 4, existing);
    assert existing - {} == existing && existing - start.source == {};
  }

  /** SELECT and an answered FETCH that finds something. */
  lemma Opened(uids: seq<Uid>, start: Mail) returns (log: seq<Entry>)
    requires Requested(uids) * start.source != {}
    ensures Genuine(start, log) && MailAfter(start, log) == start
    ensures After(uids, log) == Some(Moving(Requested(uids) * start.source))
  {
    var ask, answered := Entry(Select, OK, start), Entry(Fetch(Requested(uids)), OK, start);
    assert uids != [];
    Sent(uids, start, [], ask, Selecting(1, {}));
    log := [] + [ask];
    Sent(uids, start, log, answered, Fetching(1, {}));
    log := log + [answered];
  }

  lemma {:induction false} NothingPending(uids: seq<Uid>)
    ensures Pending(uids, {}) == []
  {
    if uids != [] {
      NothingPending(uids[1..]);
    }
  }

  /** One more round of SELECT and a refused FETCH, with nothing happening. */
  lemma RefusedRound(uids: seq<Uid>, start: Mail, log: seq<Entry>, round: nat, existing: set<Uid>)
    returns (longer: seq<Entry>)
    requires Genuine(start, log) && After(uids, log) == Some(Selecting(round, existing)) && round > 1
    ensures Genuine(start, longer) && MailAfter(start, longer) == MailAfter(start, log)
    ensures After(uids, longer) == Some(Observe(uids, Fetching(round, existing), NO, {}))
  {
    var now := MailAfter(start, log);
    var ask, refused := Entry(Select, OK, now), Entry(Fetch(Requested(uids)), NO, now);
    longer := log + [ask];
    Sent(uids, start, log, ask, Selecting(round, existing));
    Sent(uids, start, longer, refused, Fetching(round, existing));
    longer := longer + [refused];
  }

  /** Sending the command that the client wants. */
  lemma Sent(uids: seq<Uid>, start: Mail, log: seq<Entry>, e: Entry, c: Client)
    requires Genuine(start, log) && Step(MailAfter(start, log), e.command, e.reply, e.after)
    requires After(uids, log) == Some(c) && Wants(uids, c) == Some(e.command)
    ensures Genuine(start, log + [e]) && MailAfter(start, log + [e]) == e.after
    ensures After(uids, log + [e]) == Some(Observe(uids, c, e.reply, FoundIn(e)))
  {
    assert (log + [e])[..|log + [e]| - 1] == log;
  }

  /** And a server that moves everything, refuses to say so and refuses the copy that follows has
      nothing reported. */
  lemma GivingUpMiscounts(uids: seq<Uid>, start: Mail) returns (log: seq<Entry>)
    requires Requested(uids) * start.source != {}
    ensures IsCall(uids, start, log, GaveUp, {})
    ensures LeftSource(uids, start, MailAfter(start, log)) == Requested(uids) * start.source
  {
    var requested := Requested(uids);
    var gone := requested * start.source;
    var moved := Mail(start.source - gone, start.flagged - gone, start.dest + gone);
    AllMovedStep(uids, start, NO);
    log := Opened(uids, start);
    Sent(uids, start, log, Entry(Move(requested), NO, moved), Moving(gone));
    log := log + [Entry(Move(requested), NO, moved)];
    Sent(uids, start, log, Entry(Copy(requested), NO, moved), Copying(gone));
    log := log + [Entry(Copy(requested), NO, moved)];
  }

  // ---- which commands are sent, and when a call finishes its work ----

  lemma {:induction false} AfterStep(uids: seq<Uid>, log: seq<Entry>, n: nat) returns (c: Client)
    requires After(uids, log).Some? && n < |log|
    ensures After(uids, log[..n]) == Some(c) && Wants(uids, c) == Some(log[n].command)
    ensures After(uids, log[..n + 1]) == Some(Observe(uids, c, log[n].reply, FoundIn(log[n])))
    decreases |log|
  {
    if n == |log| - 1 {
      assert log[..n + 1] == log;
      c := After(uids, log[..n]).value;
    } else {
      var rest := log[..|log| - 1];
      assert rest[..n] == log[..n] && rest[..n + 1] == log[..n + 1];
      c := AfterStep(uids, rest, n);
    }
  }

  /** What the latest check has shown. */
  function LastFound(log: seq<Entry>): set<Uid>
    decreases |log|
  {
    if log == [] then {}
    else if log[|log| - 1].command.Fetch? then FoundIn(log[|log| - 1])
    else LastFound(log[..|log| - 1])
  }

  predicate GrantedFlag(log: seq<Entry>) {
    exists k | 0 <= k < |log| :: log[k].command.FlagDeleted? && log[k].reply == OK
  }

  predicate JustCopied(log: seq<Entry>, uids: set<Uid>) {
    log != [] && log[|log| - 1].command == Copy(uids) && log[|log| - 1].reply == OK
  }

  ghost predicate Prepared(uids: seq<Uid>, log: seq<Entry>, c: Client) {
    match c
    case Flagging(_) => JustCopied(log, Requested(uids))
    case Expunging(_) => GrantedFlag(log)
    case MovingOne(_, todo) => AllIn(todo, LastFound(log))
    case CopyingOne(_, todo, copiedAny) => AllIn(todo, LastFound(log)) && (copiedAny ==> GrantedFlag(log))
    case FlaggingOne(_, todo, copiedAny) =>
      && AllIn(todo, LastFound(log)) && (copiedAny ==> GrantedFlag(log))
      && (todo != [] ==> JustCopied(log, {todo[0]}))
    case ExpungingOne(_) => GrantedFlag(log)
    case _ => true
  }

  lemma {:induction false} PendingIsFound(uids: seq<Uid>, remaining: set<Uid>)
    ensures AllIn(Pending(uids, remaining), remaining)
    ensures forall u | u in uids && u in remaining :: u in Pending(uids, remaining)
  {
    if uids != [] {
      PendingIsFound(uids[1..], remaining);
    }
  }

  lemma {:induction false} CallsArePrepared(uids: seq<Uid>, log: seq<Entry>)
    requires After(uids, log).Some?
    ensures Prepared(uids, log, After(uids, log).value)
    decreases |log|
  {
    if log != [] {
      var rest, e := log[..|log| - 1], log[|log| - 1];
      CallsArePrepared(uids, rest);
      PendingIsFound(uids, FoundIn(e));
      if GrantedFlag(rest) {
        var k :| 0 <= k < |rest| && rest[k].command.FlagDeleted? && rest[k].reply == OK;
        assert log[k] == rest[k];
      }
    }
  }

  /** Why each command of a call is sent: a message is marked deleted right after its granted copy and
      never else, the folder is expunged only after granted marking, and a single message is retried
      only if the latest check has shown it. */
  lemma CommandsAreJustified(uids: seq<Uid>, log: seq<Entry>, k: nat)
    requires After(uids, log).Some? && k < |log|
    ensures log[k].command.FlagDeleted? ==> JustCopied(log[..k], log[k].command.uids)
    ensures log[k].command.Expunge? ==> GrantedFlag(log[..k])
    ensures (log[k].command.Move? || log[k].command.Copy?) && log[k].command.uids != Requested(uids)
            ==> log[k].command.uids <= LastFound(log[..k])
  {
    var c := AfterStep(uids, log, k);
    CallsArePrepared(uids, log[..k]);
  }

  lemma MovesThird(uids: seq<Uid>, log: seq<Entry>)
    requires After(uids, log).Some? && |log| > 2
    ensures After(uids, log[..2]) == Some(Moving(FoundIn(log[1]))) && log[2].command == Move(Requested(uids))
  {
    var c := AfterStep(uids, log, 0);
    assert log[..0] == [];
    c := AfterStep(uids, log, 1);
    c := AfterStep(uids, log, 2);
  }

  lemma CopyComesFourth(uids: seq<Uid>, log: seq<Entry>)
    requires After(uids, log).Some? && |log| > 3 && log[2].reply == NO
    ensures After(uids, log[..3]) == Some(Copying(FoundIn(log[1])))
    ensures log[2].command == Move(Requested(uids)) && log[3].command == Copy(Requested(uids))
  {
    MovesThird(uids, log);
    var c := AfterStep(uids, log, 2);
    c := AfterStep(uids, log, 3);
  }

  lemma FlagComesFifth(uids: seq<Uid>, log: seq<Entry>)
    requires After(uids, log).Some? && |log| > 4 && log[2].reply == NO
    ensures log[3].reply == OK && log[4].command == FlagDeleted(Requested(uids))
    ensures After(uids, log[..4]) == Some(Flagging(FoundIn(log[1])))
  {
    CopyComesFourth(uids, log);
    var c := AfterStep(uids, log, 3);
    c := AfterStep(uids, log, 4);
  }

  /** After a refused MOVE a call goes on only if the copy of all messages, and then their marking,
      is granted; otherwise it ends at once. */
  lemma RefusalsEndTheCall(uids: seq<Uid>, log: seq<Entry>)
    requires After(uids, log).Some? && |log| > 3 && log[2].reply == NO
    ensures log[2].command == Move(Requested(uids)) && log[3].command == Copy(Requested(uids))
    ensures |log| > 4 ==> log[3].reply == OK && log[4].command == FlagDeleted(Requested(uids))
    ensures |log| > 5 ==> log[4].reply == OK && log[5].command == Expunge
  {
    CopyComesFourth(uids, log);
    if |log| > 4 {
      FlagComesFifth(uids, log);
    }
    if |log| > 5 {
      var c := AfterStep(uids, log, 4);
      c := AfterStep(uids, log, 5);
    }
  }

  /** A call is aborted exactly by an exception, except that one in the first FETCH reads as "nothing
      found". */
  lemma AbortedWhen(uids: seq<Uid>, start: Mail, log: seq<Entry>, exit: Exit, counted: set<Uid>)
    requires IsCall(uids, start, log, exit, counted)
    ensures exit.Aborted? <==> log != [] && log[|log| - 1].reply == Raised && |log| != 2
    ensures exit == Checked(OK) ==> AnsweredFetch(log[|log| - 1])
  {
    if log != [] {
      CallsOpen(uids, log[..|log| - 1]);
      if |log| == 2 {
        var c := AfterStep(uids, log, 0);
        assert log[..0] == [];
        c := AfterStep(uids, log, 1);
      }
    }
  }

  /** COPY, STORE and EXPUNGE are granted and take full effect, checks are answered, and MOVE does
      whatever it likes. */
  predicate CopiesWell(e: Entry) {
    match e.command
    case Fetch(_) => e.reply == OK
    case Copy(_) => e.reply == OK
    case FlagDeleted(uids) => e.reply == OK && uids * e.after.source <= e.after.flagged
    case Expunge => e.reply == OK && e.after.source !! e.after.flagged
    case _ => e.reply != Raised
  }

  /** MOVE says OK and moves at least what it is asked for alone, checks are answered, and COPY, STORE
      and EXPUNGE do whatever they like. */
  predicate MovesWell(e: Entry) {
    match e.command
    case Fetch(_) => e.reply == OK
    case Move(uids) => e.reply == OK && (|uids| == 1 ==> uids !! e.after.source)
    case _ => e.reply != Raised
  }

  /** Commands for many messages work: a granted MOVE is complete, and so are COPY, STORE and EXPUNGE. */
  predicate WorksInBulk(e: Entry) {
    CopiesWell(e) && (e.command.Move? && e.reply == OK ==> e.command.uids !! e.after.source)
  }

  predicate Emptied(uids: seq<Uid>, now: Mail) {
    Requested(uids) !! now.source
  }

  lemma EmptiedShowsNothing(uids: seq<Uid>, e: Entry)
    ensures e.command == Fetch(Requested(uids)) && Emptied(uids, e.after) ==> FoundIn(e) == {}
  {
  }

  lemma EmptiedReport(uids: seq<Uid>, start: Mail, now: Mail)
    requires Emptied(uids, now)
    ensures LeftSource(uids, start, now) == Requested(uids) * start.source
  {
  }

  /** What remains in the source is still on the list, or marked and about to be expunged. */
  ghost predicate CopyOnTrack(uids: seq<Uid>, c: Client, now: Mail) {
    var left := Requested(uids) * now.source;
    match c
    case Expunging(_) => left <= now.flagged
    case CopyingOne(_, todo, copiedAny) => forall u | u in left :: u in todo || (copiedAny && u in now.flagged)
    case FlaggingOne(_, todo, copiedAny) => forall u | u in left :: u in todo || (copiedAny && u in now.flagged)
    case ExpungingOne(_) => left <= now.flagged
    case Selecting(round, _) => round == 4 ==> Emptied(uids, now)
    case Fetching(round, _) => round == 4 ==> Emptied(uids, now)
    case Ended(exit, _) => Emptied(uids, now) && (exit.NothingFound? || exit == Checked(OK))
    case _ => true
  }

  lemma CopyStaysOnTrack(uids: seq<Uid>, start: Mail, c: Client, before: Mail, e: Entry)
    requires ClientOk(uids, start, c, before) && CopyOnTrack(uids, c, before)
    requires Wants(uids, c) == Some(e.command) && Step(before, e.command, e.reply, e.after) && CopiesWell(e)
    ensures CopyOnTrack(uids, Observe(uids, c, e.reply, FoundIn(e)), e.after)
  {
    PendingIsFound(uids, FoundIn(e));
    if c.CopyingOne? || c.FlaggingOne? {
      assert c.todo == [c.todo[0]] + c.todo[1..];
    }
  }

  lemma {:induction false} CopyOnTrackThroughout(uids: seq<Uid>, start: Mail, log: seq<Entry>)
    requires Genuine(start, log) && After(uids, log).Some?
    requires forall k | 0 <= k < |log| :: CopiesWell(log[k])
    ensures CopyOnTrack(uids, After(uids, log).value, MailAfter(start, log))
    decreases |log|
  {
    if log != [] {
      var rest := log[..|log| - 1];
      CopyOnTrackThroughout(uids, start, rest);
      CallIsSafe(uids, start, rest);
      CopyStaysOnTrack(uids, start, After(uids, rest).value, MailAfter(start, rest), log[|log| - 1]);
    }
  }

  /** What the fallback is for: if copying works and checks are answered, a call empties the source of
      everything requested and reports all of it, whatever MOVE says and does. */
  lemma CopyingFinishesTheMove(uids: seq<Uid>, start: Mail, log: seq<Entry>, exit: Exit, counted: set<Uid>)
    requires IsCall(uids, start, log, exit, counted)
    requires forall k | 0 <= k < |log| :: CopiesWell(log[k])
    ensures Requested(uids) !! MailAfter(start, log).source
    ensures counted == Requested(uids) * start.source
  {
    CopyOnTrackThroughout(uids, start, log);
    TrustworthyReportIsRight(uids, start, log, exit, counted);
    EmptiedReport(uids, start, MailAfter(start, log));
  }

  ghost predicate MoveOnTrack(uids: seq<Uid>, c: Client, now: Mail) {
    var left := Requested(uids) * now.source;
    match c
    case MovingOne(_, todo) => forall u | u in left :: u in todo
    case Selecting(round, _) => round >= 3 ==> Emptied(uids, now)
    case Fetching(round, _) => round >= 3 ==> Emptied(uids, now)
    case Ended(exit, _) => Emptied(uids, now) && (exit.NothingFound? || exit == Checked(OK))
    case Moving(_) => true
    case _ => false
  }

  lemma MoveStaysOnTrack(uids: seq<Uid>, start: Mail, c: Client, before: Mail, e: Entry)
    requires ClientOk(uids, start, c, before) && MoveOnTrack(uids, c, before)
    requires Wants(uids, c) == Some(e.command) && Step(before, e.command, e.reply, e.after) && MovesWell(e)
    ensures MoveOnTrack(uids, Observe(uids, c, e.reply, FoundIn(e)), e.after)
  {
    PendingIsFound(uids, FoundIn(e));
    NothingPending(uids);
    EmptiedShowsNothing(uids, e);
    if c.MovingOne? {
      assert c.todo == [c.todo[0]] + c.todo[1..];
      assert |{c.todo[0]}| == 1 && c.todo[0] in {c.todo[0]} && c.todo[0] !in e.after.source;
      assert e.after.source <= before.source;
      forall u | u in Requested(uids) && u in e.after.source ensures u in c.todo[1..] {
        assert u in Requested(uids) * before.source;
      }
    }
  }

  lemma {:induction false} MoveOnTrackThroughout(uids: seq<Uid>, start: Mail, log: seq<Entry>)
    requires Genuine(start, log) && After(uids, log).Some?
    requires forall k | 0 <= k < |log| :: MovesWell(log[k])
    ensures MoveOnTrack(uids, After(uids, log).value, MailAfter(start, log))
    decreases |log|
  {
    if log != [] {
      var rest := log[..|log| - 1];
      MoveOnTrackThroughout(uids, start, rest);
      CallIsSafe(uids, start, rest);
      MoveStaysOnTrack(uids, start, After(uids, rest).value, MailAfter(start, rest), log[|log| - 1]);
    }
  }

  /** What the retry one by one is for: if MOVE works for single messages and checks are answered, a
      call empties the source of everything requested and reports it, although MOVE may ignore any part
      of a longer list, and whatever COPY, STORE and EXPUNGE would do. */
  lemma SingleMovesFinishTheMove(uids: seq<Uid>, start: Mail, log: seq<Entry>, exit: Exit, counted: set<Uid>)
    requires IsCall(uids, start, log, exit, counted)
    requires forall k | 0 <= k < |log| :: MovesWell(log[k])
    ensures Requested(uids) !! MailAfter(start, log).source
    ensures counted == Requested(uids) * start.source
  {
    MoveOnTrackThroughout(uids, start, log);
    TrustworthyReportIsRight(uids, start, log, exit, counted);
    EmptiedReport(uids, start, MailAfter(start, log));
  }

  /** How many commands a call has sent when commands for many messages work. */
  ghost predicate BulkOnTrack(uids: seq<Uid>, c: Client, now: Mail, sent: nat) {
    var left := Requested(uids) * now.source;
    match c
    case Selecting(round, _) => if round == 1 then sent == 0 else Emptied(uids, now) && sent <= 2 * round + 2
    case Fetching(round, _) => if round == 1 then sent == 1 else Emptied(uids, now) && sent <= 2 * round + 3
    case Moving(_) => sent == 2
    case Copying(_) => sent == 3
    case Flagging(_) => sent == 4
    case Expunging(_) => sent == 5 && left <= now.flagged
    case Ended(_, _) => sent <= 12
    case _ => false
  }

  lemma BulkStaysOnTrack(uids: seq<Uid>, start: Mail, c: Client, before: Mail, e: Entry, sent: nat)
    requires ClientOk(uids, start, c, before) && BulkOnTrack(uids, c, before, sent)
    requires Wants(uids, c) == Some(e.command) && Step(before, e.command, e.reply, e.after) && WorksInBulk(e)
    ensures BulkOnTrack(uids, Observe(uids, c, e.reply, FoundIn(e)), e.after, sent + 1)
  {
    NothingPending(uids);
    EmptiedShowsNothing(uids, e);
  }

  lemma {:induction false} BulkOnTrackThroughout(uids: seq<Uid>, start: Mail, log: seq<Entry>)
    requires Genuine(start, log) && After(uids, log).Some?
    requires forall k | 0 <= k < |log| :: WorksInBulk(log[k])
    ensures BulkOnTrack(uids, After(uids, log).value, MailAfter(start, log), |log|)
    decreases |log|
  {
    if log != [] {
      var rest := log[..|log| - 1];
      BulkOnTrackThroughout(uids, start, rest);
      CallIsSafe(uids, start, rest);
      BulkStaysOnTrack(uids, start, After(uids, rest).value, MailAfter(start, rest), log[|log| - 1], |rest|);
    }
  }

  /** What the fallback for all messages at once is for: where commands for many messages work, with or
      without MOVE, a call takes at most 12 commands for any number of messages. */
  lemma BulkServersNeedFewCommands(uids: seq<Uid>, start: Mail, log: seq<Entry>)
    requires Genuine(start, log) && After(uids, log).Some?
    requires forall k | 0 <= k < |log| :: WorksInBulk(log[k])
    ensures |log| <= 12
  {
    BulkOnTrackThroughout(uids, start, log);
  }

  // ---- the code ----

  /** The server: it may do anything that `Step` allows. */
  method Serve(m: Mail, c: Command) returns (reply: Reply, m': Mail)
    ensures Step(m, c, reply, m')
  {
    var part: set<Uid> := *;
    reply, m' := *, m;
    match c {
      case Select =>
      case Fetch(_) =>
      case Move(uids) =>
        var moved := part * uids * m.source;
        m' := Mail(m.source - moved, m.flagged - moved, m.dest + moved);
        assert m.source - m'.source == moved;
      case Copy(uids) =>
        var copied := if reply == OK then uids * m.source else part * uids * m.source;
        m' := m.(dest := m.dest + copied);
      case FlagDeleted(uids) =>
        m' := m.(flagged := m.flagged + part * uids * m.source);
      case Expunge =>
        var removed := part * m.flagged * m.source;
        m' := Mail(m.source - removed, m.flagged - removed, m.dest);
        assert m.source - m'.source == removed;
    }
  }

  class Connection {
    /** The mail when the connection was opened. */
    ghost const start: Mail
    var mail: Mail
    ghost var log: seq<Entry>

    ghost predicate Valid()
      reads this
    {
      Genuine(start, log) && mail == MailAfter(start, log)
    }

    constructor (mail: Mail)
      ensures Valid() && log == [] && start == this.mail == mail
    {
      this.start, this.mail, this.log := mail, mail, [];
    }

    /** Sends one command and records the answer. */
    method Send(c: Command) returns (reply: Reply, found: set<Uid>)
      requires Valid()
      modifies this
      ensures Valid() && Step(old(mail), c, reply, mail)
      ensures log == old(log) + [Entry(c, reply, mail)] && found == FoundIn(Entry(c, reply, mail))
    {
      ghost var before := log;
      reply, mail := Serve(mail, c);
      found := if c.Fetch? then Found(mail, c.uids, reply) else {};
      log := log + [Entry(c, reply, mail)];
      assert log[..|log| - 1] == before;
    }
  }

  /** The rows of the local message index for the source folder of this account. */
  class MessageIndex {
    var rows: set<Uid>

    /** `writable` is false when there is no current owner or the database refuses. */
    method DeleteUids(uids: set<Uid>, writable: bool)
      modifies this
      ensures rows == if writable then old(rows) - uids else old(rows)
    {
      if uids != {} && writable {
        rows := rows - uids;
      }
    }
  }

  /** The commands sent so far are those of a client that is now at `c`. */
  ghost predicate At(conn: Connection, uids: seq<Uid>, c: Client)
    reads conn
  {
    conn.Valid() && After(uids, conn.log) == Some(c)
  }

  method Ask(conn: Connection, uids: seq<Uid>, command: Command, ghost c: Client)
    returns (reply: Reply, found: set<Uid>)
    requires At(conn, uids, c) && Wants(uids, c) == Some(command)
    modifies conn
    ensures At(conn, uids, Observe(uids, c, reply, found))
  {
    ghost var log := conn.log;
    reply, found := conn.Send(command);
    Sent(uids, conn.start, log, Entry(command, reply, conn.mail), c);
  }

  /** Bulk move over a new connection.  `count` is `None` when an exception reaches the caller.  The
      commands sent and their answers are a call that ended in `exit` and reports `counted`, whose
      rows leave the index.  At every moment nothing is lost; and a trustworthy report is exactly what
      left the source folder. */
  method Run(conn: Connection, index: MessageIndex, uids: seq<Uid>, writable: bool)
    returns (count: Option<nat>, ghost exit: Exit, ghost counted: set<Uid>)
    requires conn.Valid() && conn.log == []
    modifies conn, index
    ensures conn.Valid() && IsCall(uids, old(conn.mail), conn.log, exit, counted)
    ensures forall k | 0 <= k < |conn.log| :: Safe(old(conn.mail), Requested(uids), conn.log[k].after)
    ensures Safe(old(conn.mail), Requested(uids), conn.mail)
    ensures count == if exit.Aborted? then None else Some(|counted|)
    ensures index.rows == if writable then old(index.rows) - counted else old(index.rows)
    ensures Trustworthy(conn.log, exit) ==> counted == LeftSource(uids, old(conn.mail), conn.mail)
  {
    count, exit, counted := Session(conn, index, uids, writable);
    CallIsSafe(uids, conn.start, conn.log);
    if Trustworthy(conn.log, exit) {
      TrustworthyReportIsRight(uids, conn.start, conn.log, exit, counted);
    }
  }

  /** What `Run` does, up to its safety. */
  method Session(conn: Connection, index: MessageIndex, uids: seq<Uid>, writable: bool)
    returns (count: Option<nat>, ghost exit: Exit, ghost counted: set<Uid>)
    requires conn.Valid() && conn.log == []
    modifies conn, index
    ensures At(conn, uids, Ended(exit, counted))
    ensures count == if exit.Aborted? then None else Some(|counted|)
    ensures index.rows == if writable then old(index.rows) - counted else old(index.rows)
  {
    count, exit, counted := Some(0), NothingFound, {};
    if uids == [] {
      return;
    }
    var existing, selected, reply := Check(conn, uids, 1, {});
    if !selected {
      return None, Aborted, {};
    }
    if existing == {} {
      return;
    }
    var outcome := Transfer(conn, uids, existing);
    if outcome != OK {
      return if outcome == NO then Some(0) else None, if outcome == NO then GaveUp else Aborted, {};
    }
    var final: set<Uid>;
    final, selected, reply := Check(conn, uids, 4, existing);
    if reply == Raised {
      return None, Aborted, {};
    }
    var moved := existing - final;
    index.DeleteUids(moved, writable);
    count, exit, counted := Some(|moved|), Checked(reply), moved;
  }

  /** SELECT and FETCH: the requested messages the server shows in the source; a refusal shows none. */
  method Check(conn: Connection, uids: seq<Uid>, ghost round: nat, ghost existing: set<Uid>)
    returns (found: set<Uid>, selected: bool, reply: Reply)
    requires At(conn, uids, Selecting(round, existing))
    modifies conn
    ensures At(conn, uids, if selected then Observe(uids, Fetching(round, existing), reply, found) else Abort())
    ensures !selected ==> reply == Raised
  {
    reply, found := Ask(conn, uids, Select, Selecting(round, existing));
    selected := reply != Raised;
    if selected {
      reply, found := Ask(conn, uids, Fetch(Requested(uids)), Fetching(round, existing));
    }
  }

  /** Where the transfer ends: ready for the closing check, given up, or aborted. */
  function Outcome(existing: set<Uid>, outcome: Reply): Client {
    match outcome
    case OK => Selecting(4, existing)
    case NO => Ended(GaveUp, {})
    case Raised => Abort()
  }

  /** Everything between the first and the last FETCH; `NO` when a refusal makes it give up. */
  method Transfer(conn: Connection, uids: seq<Uid>, ghost existing: set<Uid>) returns (outcome: Reply)
    requires At(conn, uids, Moving(existing))
    modifies conn
    ensures At(conn, uids, Outcome(existing, outcome))
  {
    var found: set<Uid>;
    outcome, found := Ask(conn, uids, Move(Requested(uids)), Moving(existing));
    if outcome == Raised {
      return;
    }
    if outcome != OK {
      outcome := CopyThenDelete(conn, uids, existing);
      if outcome != OK {
        return;
      }
    }
    var remaining, selected, reply := Check(conn, uids, 2, existing);
    if reply == Raised {
      return Raised;
    }
    var alive := MoveOneByOne(conn, uids, remaining, existing);
    if !alive {
      return Raised;
    }
    remaining, selected, reply := Check(conn, uids, 3, existing);
    if reply == Raised {
      return Raised;
    }
    alive := CopyOneByOne(conn, uids, remaining, existing);
    outcome := if alive then OK else Raised;
  }

  /** The bulk fallback: copy, mark deleted, expunge; `NO` when a refusal makes it give up. */
  method CopyThenDelete(conn: Connection, uids: seq<Uid>, ghost existing: set<Uid>) returns (outcome: Reply)
    requires At(conn, uids, Copying(existing))
    modifies conn
    ensures At(conn, uids, if outcome == OK then Selecting(2, existing) else Outcome(existing, outcome))
  {
    var found: set<Uid>;
    outcome, found := Ask(conn, uids, Copy(Requested(uids)), Copying(existing));
    if outcome != OK {
      return;
    }
    outcome, found := Ask(conn, uids, FlagDeleted(Requested(uids)), Flagging(existing));
    if outcome != OK {
      return;
    }
    outcome, found := Ask(conn, uids, Expunge, Expunging(existing));
    outcome := if outcome == Raised then Raised else OK;
  }

  method MoveOneByOne(conn: Connection, uids: seq<Uid>, remaining: set<Uid>, ghost existing: set<Uid>)
    returns (alive: bool)
    requires At(conn, uids, ToMove(existing, Pending(uids, remaining)))
    modifies conn
    ensures At(conn, uids, if alive then Selecting(3, existing) else Abort())
  {
    for i := 0 to |uids|
      invariant At(conn, uids, ToMove(existing, Pending(uids[i..], remaining)))
    {
      PendingFrom(uids, remaining, i);
      if uids[i] in remaining {
        ghost var todo := Pending(uids[i..], remaining);
        assert todo[1..] == Pending(uids[i + 1..], remaining);
        var reply, _ := Ask(conn, uids, Move({uids[i]}), MovingOne(existing, todo));
        if reply == Raised {
          return false;
        }
      }
    }
    alive := true;
  }

  method CopyOneByOne(conn: Connection, uids: seq<Uid>, remaining: set<Uid>, ghost existing: set<Uid>)
    returns (alive: bool)
    requires At(conn, uids, ToCopy(existing, Pending(uids, remaining), false))
    modifies conn
    ensures At(conn, uids, if alive then Selecting(4, existing) else Abort())
  {
    var copiedAny := false;
    for i := 0 to |uids|
      invariant At(conn, uids, ToCopy(existing, Pending(uids[i..], remaining), copiedAny))
    {
      PendingFrom(uids, remaining, i);
      if uids[i] in remaining {
        ghost var todo := Pending(uids[i..], remaining);
        assert todo[1..] == Pending(uids[i + 1..], remaining);
        var reply, _ := Ask(conn, uids, Copy({uids[i]}), CopyingOne(existing, todo, copiedAny));
        if reply == Raised {
          return false;
        }
        if reply == OK {
          var marked, _ := Ask(conn, uids, FlagDeleted({uids[i]}), FlaggingOne(existing, todo, copiedAny));
          if marked == Raised {
            return false;
          }
          copiedAny := copiedAny || marked == OK;
        }
      }
    }
    if copiedAny {
      var reply, _ := Ask(conn, uids, Expunge, ExpungingOne(existing));
      if reply == Raised {
        return false;
      }
    }
    alive := true;
  }
}
