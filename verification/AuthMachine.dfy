/** The auth manager under concurrency.  Writers of the user map hold the config lock;
    `set_admin` writes field by field while it holds it, and readers of privileges take no
    lock at all.  Deleting and renaming a user release the config lock before they sweep the
    session table in a second lock region, so they can be overtaken in between. */
module AuthMachine {
  import opened Prelude
  import opened AuthModel

  type Token = string

  datatype Session = Session(name: Name, expiry: int)

  /** Who holds the config lock, between two of its steps, and what is still to be written. */
  datatype Hold =
    | Free
    | PromoteStash(name: Name)                       // flag written
    | PromoteMap(name: Name)                         // flag and stash written
    | DemoteMap(name: Name, restored: Privileges)    // stash popped
    | DemoteFlag(name: Name)                         // map restored
    | LoginInsert(name: Name)                        // user seen in the map
    | ResetRevoke(name: Name)                        // new password written

  /** Session sweeps that a delete or a rename has still to do, outside the config lock. */
  datatype Pending = Purge(name: Name) | Sweep(oldName: Name, newName: Name)

  datatype State = State(
    users: Users,
    sessions: map<Token, Session>,
    hold: Hold,
    pending: map<nat, Pending>)

  datatype Event =
    | EvCreate(name: Name, password: string, isAdmin: bool)
    | EvDelete(call: nat, name: Name, requester: Name, tokensRevoked: bool)
    | EvPurge(call: nat)
    | EvRename(call: nat, oldName: Name, newName: Name, requester: Name)
    | EvSweep(call: nat)
    | EvSetPrivileges(name: Name, request: Privileges)
    | EvSetAdmin(name: Name, isAdmin: bool, requester: Name, tokensRevoked: bool)
    | EvWriteNext                                    // the lock holder does its next write
    | EvReset(name: Name, password: string, requester: Name)
    | EvChangePassword(name: Name, password: string)
    | EvLogin(name: Name)
    | EvInsertSession(token: Token, expiry: int)
    | EvValidate(token: Token, now: int)
    | EvRevoke(token: Token)
    | EvRevokeUser(name: Name)

  function WithoutUser(sessions: map<Token, Session>, name: Name): map<Token, Session> {
    map t | t in sessions && sessions[t].name != name :: sessions[t]
  }

  function Renamed(sessions: map<Token, Session>, oldName: Name, newName: Name): map<Token, Session> {
    map t | t in sessions ::
      if sessions[t].name == oldName then sessions[t].(name := newName) else sessions[t]
  }

  /** One atomic step; `None` when the step cannot be taken now (a lock is held elsewhere). */
  function Next(s: State, e: Event): Option<State> {
    match e
    case EvCreate(n, p, a) =>
      if !s.hold.Free? then None else Some(s.(users := Create(s.users, n, p, a).0))
    case EvDelete(c, n, r, t) =>
      if !s.hold.Free? || c in s.pending then None
      else
        var (users', done) := Delete(s.users, n, r, t);
        Some(if done then s.(users := users', pending := s.pending[c := Purge(n)]) else s)
    case EvPurge(c) =>
      if c !in s.pending || !s.pending[c].Purge? then None
      else Some(s.(sessions := WithoutUser(s.sessions, s.pending[c].name), pending := s.pending - {c}))
    case EvRename(c, o, n, r) =>
      if !s.hold.Free? || c in s.pending then None
      else
        var (users', done) := Rename(s.users, o, n, r);
        Some(if done then s.(users := users', pending := s.pending[c := Sweep(o, n)]) else s)
    case EvSweep(c) =>
      if c !in s.pending || !s.pending[c].Sweep? then None
      else
        var sessions' := Renamed(s.sessions, s.pending[c].oldName, s.pending[c].newName);
        Some(s.(sessions := sessions', pending := s.pending - {c}))
    case EvSetPrivileges(n, q) =>
      if !s.hold.Free? then None else Some(s.(users := SetPrivileges(s.users, n, q).0))
    case EvSetAdmin(n, a, r, t) =>
      if !s.hold.Free? then None
      else if SetAdminVerdict(s.users, n, a, r, t).Some? then Some(s)
      else if a then
        Some(s.(users := s.users[n := s.users[n].(isAdmin := true)], hold := PromoteStash(n)))
      else
        Some(s.(users := s.users[n := s.users[n].(stash := None)],
                hold := DemoteMap(n, OrDefault(s.users[n].stash))))
    case EvWriteNext => WriteNext(s)
    case EvReset(n, p, r) =>
      if !s.hold.Free? then None
      else
        var (users', done) := ResetPassword(s.users, n, p, r);
        Some(if done then s.(users := users', hold := ResetRevoke(n)) else s)
    case EvChangePassword(n, p) =>      // the old password was checked earlier, without the lock
      if !s.hold.Free? then None
      else if n !in s.users then Some(s)
      else Some(s.(users := s.users[n := s.users[n].(password := p)]))
    case EvLogin(n) =>
      if !s.hold.Free? then None
      else Some(if n in s.users then s.(hold := LoginInsert(n)) else s)
    case EvInsertSession(t, x) =>
      if !s.hold.LoginInsert? then None
      else Some(s.(sessions := s.sessions[t := Session(s.hold.name, x)], hold := Free))
    case EvValidate(t, now) =>
      if t != "" && t in s.sessions && (now > s.sessions[t].expiry || s.sessions[t].name !in s.users)
      then Some(s.(sessions := s.sessions - {t})) else Some(s)
    case EvRevoke(t) => Some(s.(sessions := s.sessions - {t}))
    case EvRevokeUser(n) => Some(s.(sessions := WithoutUser(s.sessions, n)))
  }

  function WriteNext(s: State): Option<State> {
    match s.hold
    case PromoteStash(n) =>
      if n !in s.users then None
      else
        var user := s.users[n];
        Some(s.(users := s.users[n := user.(stash := Some(OrDefault(user.privileges)))], hold := PromoteMap(n)))
    case PromoteMap(n) =>
      if n !in s.users then None
      else Some(s.(users := s.users[n := s.users[n].(privileges := Some(ADMIN_PRIVILEGES))], hold := Free))
    case DemoteMap(n, restored) =>
      if n !in s.users then None
      else Some(s.(users := s.users[n := s.users[n].(privileges := Some(restored))], hold := DemoteFlag(n)))
    case DemoteFlag(n) =>
      if n !in s.users then None
      else Some(s.(users := s.users[n := s.users[n].(isAdmin := false)], hold := Free))
    case ResetRevoke(n) => Some(s.(sessions := WithoutUser(s.sessions, n), hold := Free))
    case _ => None
  }

  predicate StepAt(states: seq<State>, events: seq<Event>, i: nat)
    requires |states| == |events| + 1 && i < |events|
  {
    Next(states[i], events[i]) == Some(states[i + 1])
  }

  predicate IsRun(states: seq<State>, events: seq<Event>) {
    && |states| == |events| + 1
    && forall i :: 0 <= i < |events| ==> StepAt(states, events, i)
  }

  // ---- the field-by-field writes amount to the one-step operation ----

  /** The state after the lock holder of `s` has done two more writes. */
  function AfterTwoWrites(s: State): Option<State> {
    var s1 := WriteNext(s);
    if s1.None? then None else WriteNext(s1.value)
  }

  /** The first write of a promotion or demotion that nothing refuses. */
  lemma FirstWrite(s: State, name: Name, isAdmin: bool, requester: Name)
    requires s.hold.Free? && SetAdminVerdict(s.users, name, isAdmin, requester, true).None?
    ensures var s1 := Next(s, EvSetAdmin(name, isAdmin, requester, true));
            && name in s.users && s1.Some? && name in s1.value.users
            && s1.value == s.(users := s.users[name := s1.value.users[name]], hold := s1.value.hold)
            && (if isAdmin
                then s1.value.users[name] == s.users[name].(isAdmin := true) && s1.value.hold == PromoteStash(name)
                else s1.value.users[name] == s.users[name].(stash := None)
                     && s1.value.hold == DemoteMap(name, OrDefault(s.users[name].stash)))
  {
  }

  lemma LastWrites(s: State, name: Name, before: User, after: User)
    requires name in s.users && s.users[name] == before
    requires if s.hold == PromoteStash(name) then after == before.(stash := Some(OrDefault(before.privileges)))
             else if s.hold == PromoteMap(name) then after == before.(privileges := Some(ADMIN_PRIVILEGES))
             else if s.hold.DemoteMap? && s.hold.name == name then after == before.(privileges := Some(s.hold.restored))
             else s.hold == DemoteFlag(name) && after == before.(isAdmin := false)
    ensures WriteNext(s)
         == Some(s.(users := s.users[name := after],
                    hold := if s.hold.PromoteStash? then PromoteMap(name)
                            else if s.hold.DemoteMap? then DemoteFlag(name) else Free))
  {
  }

  lemma UpdateTwice(users: Users, name: Name, first: User, second: User)
    ensures users[name := first][name := second] == users[name := second]
  {
  }

  lemma TwoWrites(s1: State, name: Name, first: User, second: User, third: User)
    requires name in s1.users && s1.users[name] == first
    requires || (s1.hold == PromoteStash(name) && second == first.(stash := Some(OrDefault(first.privileges)))
                 && third == second.(privileges := Some(ADMIN_PRIVILEGES)))
             || (s1.hold.DemoteMap? && s1.hold.name == name && second == first.(privileges := Some(s1.hold.restored))
                 && third == second.(isAdmin := false))
    ensures AfterTwoWrites(s1) == Some(s1.(users := s1.users[name := third], hold := Free))
  {
    LastWrites(s1, name, first, second);
    var s2 := WriteNext(s1).value;
    LastWrites(s2, name, second, third);
    UpdateTwice(s1.users, name, second, third);
  }

  /** A promotion or demotion that nothing refuses takes three steps; together they change the
      user map exactly as the one-step operation does, and release the lock. */
  lemma WritesRefineSetAdmin(s: State, name: Name, isAdmin: bool, requester: Name)
    requires s.hold.Free? && SetAdminVerdict(s.users, name, isAdmin, requester, true).None?
    ensures var s1 := Next(s, EvSetAdmin(name, isAdmin, requester, true));
            && s1.Some?
            && AfterTwoWrites(s1.value) == Some(s.(users := SetAdmin(s.users, name, isAdmin, requester, true).0))
  {
    FirstWrite(s, name, isAdmin, requester);
    SetAdminWrites(s.users, name, isAdmin, requester, true);
    var s1 := Next(s, EvSetAdmin(name, isAdmin, requester, true)).value;
    var user := s.users[name];
    var first := s1.users[name];
    var third := if isAdmin then Promoted(user) else Demoted(user);
    var second := if isAdmin then first.(stash := third.stash) else first.(privileges := third.privileges);
    TwoWrites(s1, name, first, second, third);
    UpdateTwice(s.users, name, first, third);
  }

  // ---- the instance always has an admin ----

  /** An admin other than `name`. */
  predicate OtherAdmin(users: Users, name: Name) {
    exists n | n in users :: n != name && users[n].isAdmin
  }

  predicate HasAdmin(users: Users) {
    exists n | n in users :: users[n].isAdmin
  }

  predicate AdminInv(s: State) {
    && HasAdmin(s.users)
    && (s.hold.DemoteMap? || s.hold.DemoteFlag? ==> OtherAdmin(s.users, s.hold.name))
  }

  lemma TwoAdminsLeaveOne(users: Users, name: Name)
    requires |Admins(users)| > 1
    ensures OtherAdmin(users, name)
  {
    if Admins(users) <= {name} {
      SubsetSize(Admins(users), {name});
    }
    var n :| n in Admins(users) && n != name;
    assert n in users;
  }

  lemma StepKeepsAdmin(s: State, e: Event)
    requires AdminInv(s) && Next(s, e).Some?
    ensures AdminInv(Next(s, e).value)
  {
    var s' := Next(s, e).value;
    var a :| a in s.users && s.users[a].isAdmin;
    if e.EvDelete? && s'.users != s.users {
      assert e.requester in s'.users && s'.users[e.requester].isAdmin;
    } else if e.EvRename? && s'.users != s.users {
      var a' := if a == e.oldName then e.newName else a;
      assert a' in s'.users && s'.users[a'].isAdmin;
    } else if e.EvSetAdmin? && s' != s {
      assert a in s'.users && s'.users[a].isAdmin;
      if !e.isAdmin {
        TwoAdminsLeaveOne(s.users, e.name);
        var o :| o in s.users && o != e.name && s.users[o].isAdmin;
        assert o in s'.users && s'.users[o].isAdmin;
      }
    } else if e.EvWriteNext? && (s.hold.DemoteMap? || s.hold.DemoteFlag?) {
      var o :| o in s.users && o != s.hold.name && s.users[o].isAdmin;
      assert o in s'.users && s'.users[o].isAdmin;
    } else {
      assert a in s'.users && s'.users[a].isAdmin;
    }
  }

  /** However the lock regions of any operations interleave, every state of a run that starts
      with an admin has one. */
  lemma {:induction false} NeverWithoutAdmin(states: seq<State>, events: seq<Event>, i: nat)
    requires IsRun(states, events) && i < |states|
    requires states[0].hold.Free? && HasAdmin(states[0].users)
    ensures AdminInv(states[i])
  {
    if i > 0 {
      NeverWithoutAdmin(states, events, i - 1);
      assert StepAt(states, events, i - 1);
      StepKeepsAdmin(states[i - 1], events[i - 1]);
    }
  }

  predicate MayAddAdmin(e: Event) {
    (e.EvCreate? && e.isAdmin) || (e.EvSetAdmin? && e.isAdmin) || e.EvRename?
  }

  lemma StepAddsNoAdmin(s: State, e: Event, name: Name)
    requires Next(s, e).Some? && !MayAddAdmin(e) && IsAdmin(Next(s, e).value.users, name)
    ensures IsAdmin(s.users, name)
  {
  }

  lemma {:induction false} AdminsOnlyShrink(states: seq<State>, events: seq<Event>, name: Name, i: nat)
    requires IsRun(states, events) && i < |states|
    requires forall k | 0 <= k < i :: !MayAddAdmin(events[k])
    requires IsAdmin(states[i].users, name)
    ensures IsAdmin(states[0].users, name)
  {
    if i > 0 {
      assert StepAt(states, events, i - 1);
      StepAddsNoAdmin(states[i - 1], events[i - 1], name);
      AdminsOnlyShrink(states, events, name, i - 1);
    }
  }

  /** Demotions racing on the last two admins, `a` and `b`, cannot both succeed. */
  lemma LastTwoAdminsCannotBothFall(states: seq<State>, events: seq<Event>, a: Name, b: Name, i: nat)
    requires IsRun(states, events) && i < |states|
    requires states[0].hold.Free? && HasAdmin(states[0].users) && Admins(states[0].users) <= {a, b}
    requires forall k | 0 <= k < i :: !MayAddAdmin(events[k])
    ensures IsAdmin(states[i].users, a) || IsAdmin(states[i].users, b)
  {
    NeverWithoutAdmin(states, events, i);
    var n :| n in states[i].users && states[i].users[n].isAdmin;
    AdminsOnlyShrink(states, events, n, i);
    assert n in Admins(states[0].users);
  }

  // ---- reading privileges without a lock ----

  /** What `get_privileges` returns when it reads the flag in one state and the map in a later one. */
  function TwoReads(atFlag: User, atMap: User): Privileges {
    if atFlag.isAdmin then ADMIN_PRIVILEGES else DEFAULT_PRIVILEGES + Stored(atMap)
  }

  /** `p` was what `name` could do at some moment from state `i` to state `j`. */
  ghost predicate InForce(states: seq<State>, name: Name, i: nat, j: nat, p: Privileges)
    requires j < |states|
  {
    exists k | i <= k <= j ::
      name in states[k].users && Effective(states[k].users[name]) == p
  }

  ghost predicate Stays(states: seq<State>, name: Name, i: nat, j: nat)
    requires j < |states|
  {
    forall k | i <= k <= j :: name in states[k].users
  }

  /** What a reader that saw the flag down can rely on later: each map the record holds, or is
      about to get back, is in `seen`, the maps in force since. */
  ghost predicate Explained(seen: iset<Privileges>, name: Name, user: User, hold: Hold) {
    && DEFAULT_PRIVILEGES + Stored(user) in seen
    && (user.isAdmin ==>
        if hold.DemoteMap? && hold.name == name then DEFAULT_PRIVILEGES + hold.restored in seen
        else if (hold.PromoteStash? || hold.DemoteFlag?) && hold.name == name then true
        else DEFAULT_PRIVILEGES + OrDefault(user.stash) in seen)
  }

  ghost function Seen(states: seq<State>, name: Name, i: nat, j: nat): iset<Privileges>
    requires j < |states|
  {
    iset p | InForce(states, name, i, j, p)
  }

  lemma InForceNow(states: seq<State>, name: Name, i: nat, j: nat)
    requires i <= j < |states| && name in states[j].users
    ensures InForce(states, name, i, j, Effective(states[j].users[name]))
  {
  }

  /** The lock holder, if any, is not in the middle of writing the record `name`. */
  predicate SettledFor(hold: Hold, name: Name) {
    hold.PromoteStash? || hold.PromoteMap? || hold.DemoteMap? || hold.DemoteFlag? ==> hold.name != name
  }

  /** What a step can do to a record that is an admin after it and keeps its name. */
  predicate RecordStep(name: Name, user: User, hold: Hold, user': User, hold': Hold) {
    || (user' == user && hold' == hold)
    || (user'.(password := user.password) == user && SettledFor(hold, name) && SettledFor(hold', name))
    || (!user.isAdmin && user' == user.(isAdmin := true) && hold' == PromoteStash(name))
    || (hold == PromoteStash(name) && hold' == PromoteMap(name)
        && user' == user.(stash := Some(OrDefault(user.privileges))))
    || (hold == PromoteMap(name) && hold' == Free && user' == user.(privileges := Some(ADMIN_PRIVILEGES)))
    || (hold.Free? && hold' == DemoteMap(name, OrDefault(user.stash)) && user' == user.(stash := None))
    || (hold.DemoteMap? && hold.name == name && hold' == DemoteFlag(name)
        && user' == user.(privileges := Some(hold.restored)))
  }

  lemma EveryStepIsARecordStep(s: State, e: Event, name: Name)
    requires Next(s, e).Some? && name in s.users && name in Next(s, e).value.users
    requires Next(s, e).value.users[name].isAdmin
    ensures RecordStep(name, s.users[name], s.hold, Next(s, e).value.users[name], Next(s, e).value.hold)
  {
  }

  lemma RecordStepExplained(
    seen: iset<Privileges>, seen': iset<Privileges>, name: Name, user: User, hold: Hold, user': User, hold': Hold)
    requires Explained(seen, name, user, hold)
    requires seen <= seen' && Effective(user') in seen'
    requires user'.isAdmin ==> RecordStep(name, user, hold, user', hold')
    ensures Explained(seen', name, user', hold')
  {
    if user'.isAdmin {
      MergeOrDefault(user.privileges);
      if hold == PromoteMap(name) && hold' == Free {
        AdminMapsCoverDefaults();
      }
    }
  }

  lemma RunRecordStep(states: seq<State>, events: seq<Event>, name: Name, j: nat)
    requires IsRun(states, events) && j < |events|
    requires name in states[j].users && name in states[j + 1].users && states[j + 1].users[name].isAdmin
    ensures RecordStep(name, states[j].users[name], states[j].hold, states[j + 1].users[name], states[j + 1].hold)
  {
    assert StepAt(states, events, j);
    EveryStepIsARecordStep(states[j], events[j], name);
  }

  lemma SeenNow(states: seq<State>, name: Name, i: nat, j: nat)
    requires i <= j < |states| && name in states[j].users
    ensures Effective(states[j].users[name]) in Seen(states, name, i, j)
    ensures i < j ==> Seen(states, name, i, j - 1) <= Seen(states, name, i, j)
  {
    InForceNow(states, name, i, j);
  }

  lemma ExplainedWhileDown(seen: iset<Privileges>, name: Name, user: User, hold: Hold)
    requires !user.isAdmin && Effective(user) in seen
    ensures Explained(seen, name, user, hold)
  {
  }

  ghost predicate ExplainedAt(states: seq<State>, name: Name, i: nat, j: nat)
    requires j < |states|
  {
    name in states[j].users && Explained(Seen(states, name, i, j), name, states[j].users[name], states[j].hold)
  }

  lemma ExplainedNext(states: seq<State>, events: seq<Event>, name: Name, i: nat, j: nat)
    requires IsRun(states, events) && i <= j < |events|
    requires name in states[j + 1].users && ExplainedAt(states, name, i, j)
    ensures ExplainedAt(states, name, i, j + 1)
  {
    SeenNow(states, name, i, j + 1);
    if states[j + 1].users[name].isAdmin {
      RunRecordStep(states, events, name, j);
    }
    RecordStepExplained(Seen(states, name, i, j), Seen(states, name, i, j + 1), name,
      states[j].users[name], states[j].hold, states[j + 1].users[name], states[j + 1].hold);
  }

  lemma {:induction false} ExplainedThroughout(states: seq<State>, events: seq<Event>, name: Name, i: nat, j: nat)
    requires IsRun(states, events) && i <= j < |states|
    requires Stays(states, name, i, j) && name in states[i].users && !states[i].users[name].isAdmin
    ensures ExplainedAt(states, name, i, j)
    decreases j
  {
    assert name in states[j].users;
    if i == j {
      SeenNow(states, name, i, j);
      ExplainedWhileDown(Seen(states, name, i, i), name, states[i].users[name], states[i].hold);
    } else {
      ExplainedThroughout(states, events, name, i, j - 1);
      ExplainedNext(states, events, name, i, j - 1);
    }
  }

  /** The lock-free read is linearizable: against any interleaving of writers, what it returns
      was what the user could do at some moment between its first and its last read. */
  lemma LockFreeReadLinearizes(states: seq<State>, events: seq<Event>, name: Name, i: nat, j: nat)
    requires IsRun(states, events) && i <= j < |states|
    requires Stays(states, name, i, j)
    ensures name in states[i].users && name in states[j].users
    ensures InForce(states, name, i, j, TwoReads(states[i].users[name], states[j].users[name]))
  {
    assert name in states[i].users && name in states[j].users;
    if states[i].users[name].isAdmin {
      InForceNow(states, name, i, i);
    } else {
      ExplainedThroughout(states, events, name, i, j);
    }
  }

  // ---- a deleted user keeps no session ----

  predicate NoSession(s: State, name: Name) {
    forall t | t in s.sessions :: s.sessions[t].name != name
  }

  /** The name is unused and nothing under way is about to use it. */
  predicate Unused(s: State, name: Name) {
    && name !in s.users
    && s.hold != LoginInsert(name)
    && NoRenameTo(s, name)
  }

  predicate NoRenameTo(s: State, name: Name) {
    forall c | c in s.pending :: s.pending[c].Sweep? ==> s.pending[c].newName != name
  }

  predicate Produces(e: Event, name: Name) {
    || (e.EvCreate? && e.name == name)
    || (e.EvRename? && e.newName == name)
  }

  lemma StepKeepsUnused(s: State, e: Event, name: Name)
    requires Next(s, e).Some? && Unused(s, name) && !Produces(e, name)
    ensures Unused(Next(s, e).value, name)
  {
  }

  lemma StepAddsNoSession(s: State, e: Event, name: Name)
    requires Next(s, e).Some? && Unused(s, name) && NoSession(s, name)
    ensures NoSession(Next(s, e).value, name)
  {
  }

  lemma {:induction false} StaysUnused(states: seq<State>, events: seq<Event>, name: Name, i: nat, k: nat)
    requires IsRun(states, events) && i <= k < |states|
    requires Unused(states[i], name)
    requires forall m | i <= m < k :: !Produces(events[m], name)
    ensures Unused(states[k], name)
    ensures NoSession(states[i], name) ==> NoSession(states[k], name)
    decreases k
  {
    if i < k {
      StaysUnused(states, events, name, i, k - 1);
      assert StepAt(states, events, k - 1);
      StepKeepsUnused(states[k - 1], events[k - 1], name);
      if NoSession(states[k - 1], name) {
        StepAddsNoSession(states[k - 1], events[k - 1], name);
      }
    }
  }

  /** The race between login and deletion is closed.  Step `i` removes `name` from the user map,
      step `j` is the session sweep of that deletion: from then on no session names the user,
      whatever logins overlapped it, unless a create or a rename produces the name again. */
  lemma DeletedUserHasNoSession(
    states: seq<State>, events: seq<Event>, call: nat, name: Name, requester: Name, i: nat, j: nat, k: nat)
    requires IsRun(states, events) && i < j < k < |states|
    requires events[i] == EvDelete(call, name, requester, true)
    requires Delete(states[i].users, name, requester, true).1
    requires events[j] == EvPurge(call) && call in states[j].pending && states[j].pending[call] == Purge(name)
    requires NoRenameTo(states[i], name)
    requires forall m | i < m < |events| :: !Produces(events[m], name)
    ensures NoSession(states[k], name)
  {
    assert StepAt(states, events, i);
    StaysUnused(states, events, name, i + 1, j);
    assert StepAt(states, events, j);
    StepKeepsUnused(states[j], events[j], name);
    assert NoSession(states[j + 1], name);
    StaysUnused(states, events, name, j + 1, k);
  }

  // ---- exactly when a deletion is final ----

  /** A name that a user can have. */
  predicate Usable(name: Name) {
    name != "" && name !in RESERVED_USERNAMES
  }

  /** Users have usable names, and a rename that has still to sweep went from one usable name to
      another one. */
  predicate WellNamed(s: State) {
    && (forall n | n in s.users :: Usable(n))
    && (forall c | c in s.pending && s.pending[c].Sweep? ::
          Usable(s.pending[c].oldName) && s.pending[c].oldName != s.pending[c].newName)
  }

  lemma NewNamesAreUsable(users: Users, name: Name, newName: Name, requester: Name, password: string, isAdmin: bool)
    ensures Create(users, name, password, isAdmin).1 ==> Usable(name)
    ensures Rename(users, name, newName, requester).1 ==> Usable(newName) && name in users && name != newName
  {
  }

  lemma StepKeepsWellNamed(s: State, e: Event)
    requires WellNamed(s) && Next(s, e).Some?
    ensures WellNamed(Next(s, e).value)
  {
    if e.EvCreate? {
      NewNamesAreUsable(s.users, e.name, "", "", e.password, e.isAdmin);
    } else if e.EvRename? {
      NewNamesAreUsable(s.users, e.oldName, e.newName, e.requester, "", false);
    }
  }

  lemma {:induction false} RunKeepsWellNamed(states: seq<State>, events: seq<Event>, i: nat)
    requires IsRun(states, events) && i < |states|
    requires states[0].pending == map[] && forall n | n in states[0].users :: Usable(n)
    ensures WellNamed(states[i])
  {
    if i > 0 {
      RunKeepsWellNamed(states, events, i - 1);
      assert StepAt(states, events, i - 1);
      StepKeepsWellNamed(states[i - 1], events[i - 1]);
    }
  }

  /** `states` go on from a state in which `call` deletes `name`, without producing the name again,
      and step `j` is the session sweep of that deletion. */
  ghost predicate DeletedAndSwept(
    states: seq<State>, events: seq<Event>, call: nat, name: Name, requester: Name, j: nat)
  {
    && IsRun(states, events) && 0 < j < |events|
    && events[0] == EvDelete(call, name, requester, true)
    && events[j] == EvPurge(call) && call in states[j].pending && states[j].pending[call] == Purge(name)
    && forall m | 0 < m < |events| :: !Produces(events[m], name)
  }

  lemma NextStep(s: State, e: Event) returns (s': State)
    requires Next(s, e).Some?
    ensures Next(s, e) == Some(s')
  {
    s' := Next(s, e).value;
  }

  /** The four steps that undo a sweep of `newName`: its holder under `oldName` exists or is created
      again, logs in, and the pending rename takes the session along. */
  lemma PendingSweepTakesSession(s: State, c: nat, token: Token) returns (events: seq<Event>, states: seq<State>)
    requires WellNamed(s) && s.hold.Free? && c in s.pending && s.pending[c].Sweep?
    ensures |events| == 4 && forall m | 0 <= m < 4 :: !Produces(events[m], s.pending[c].newName)
    ensures IsRun(states, events) && states[0] == s
    ensures !NoSession(states[4], s.pending[c].newName)
  {
    var o := s.pending[c].oldName;
    assert Usable(o) && o != s.pending[c].newName;
    events := [EvCreate(o, "", false), EvLogin(o), EvInsertSession(token, 0), EvSweep(c)];
    var s1 := NextStep(s, events[0]);
    assert o in s1.users && s1.hold.Free? && s1.pending == s.pending;
    var s2 := NextStep(s1, events[1]);
    var s3 := NextStep(s2, events[2]);
    assert s3.sessions[token].name == o && s3.pending == s.pending;
    var s4 := NextStep(s3, events[3]);
    assert s4.sessions[token].name == s.pending[c].newName;
    states := [s, s1, s2, s3, s4];
    assert StepAt(states, events, 0) && StepAt(states, events, 1);
    assert StepAt(states, events, 2) && StepAt(states, events, 3);
  }

  lemma Prepend(s: State, e: Event, states: seq<State>, events: seq<Event>)
    requires IsRun(states, events) && Next(s, e) == Some(states[0])
    ensures IsRun([s] + states, [e] + events)
  {
    forall i | 0 <= i < |[e] + events| ensures StepAt([s] + states, [e] + events, i) {
      if i > 0 {
        assert StepAt(states, events, i - 1);
      }
    }
  }

  /** If a rename to `name` has still to sweep when the deletion is accepted, then the deleted user
      can end up with a session, after the sweep of the deletion. */
  lemma PendingRenameLeavesSession(s: State, call: nat, name: Name, requester: Name)
    returns (states: seq<State>, events: seq<Event>)
    requires WellNamed(s) && s.hold.Free? && call !in s.pending
    requires Delete(s.users, name, requester, true).1 && !NoRenameTo(s, name)
    ensures DeletedAndSwept(states, events, call, name, requester, 1) && states[0] == s
    ensures !NoSession(states[|events|], name)
  {
    var c :| c in s.pending && s.pending[c].Sweep? && s.pending[c].newName == name;
    var s1 := NextStep(s, EvDelete(call, name, requester, true));
    assert s1.pending[call] == Purge(name);
    StepKeepsWellNamed(s, EvDelete(call, name, requester, true));
    var s2 := NextStep(s1, EvPurge(call));
    StepKeepsWellNamed(s1, EvPurge(call));
    assert s2.pending[c] == s.pending[c];
    var tail, after := PendingSweepTakesSession(s2, c, "");
    Prepend(s1, EvPurge(call), after, tail);
    Prepend(s, EvDelete(call, name, requester, true), [s1] + after, [EvPurge(call)] + tail);
    states := [s] + ([s1] + after);
    events := [EvDelete(call, name, requester, true)] + ([EvPurge(call)] + tail);
    assert states[6] == after[4];
    forall m | 0 < m < |events| ensures !Produces(events[m], name) {
      if m > 1 {
        assert events[m] == tail[m - 2];
      }
    }
  }

  /** Exactly when a deletion is final: whatever happens after it without producing the name again,
      no session names the user once its sessions are swept, if and only if no rename to the name
      was waiting to sweep sessions when the deletion was accepted. */
  lemma DeletionIsFinalWhen(s: State, call: nat, name: Name, requester: Name)
    requires WellNamed(s) && s.hold.Free? && call !in s.pending
    requires Delete(s.users, name, requester, true).1
    ensures (forall states, events, j |
               DeletedAndSwept(states, events, call, name, requester, j) && states[0] == s ::
               NoSession(states[|events|], name))
        <==> NoRenameTo(s, name)
  {
    if NoRenameTo(s, name) {
      forall states, events, j | DeletedAndSwept(states, events, call, name, requester, j) && states[0] == s
        ensures NoSession(states[|events|], name)
      {
        DeletedUserHasNoSession(states, events, call, name, requester, 0, j, |events|);
      }
    } else {
      var states, events := PendingRenameLeavesSession(s, call, name, requester);
    }
  }

  /** Such a deletion can be reached from any idle state in which a rename is accepted: the rename has
      moved a record but not yet its sessions, and leaves one under the new name although that user
      is deleted and swept in between. */
  lemma OverlappingRenameLeavesSession(
    s0: State, oldName: Name, newName: Name, requester: Name, token: Token)
    returns (states: seq<State>, events: seq<Event>)
    requires s0.hold.Free? && s0.pending == map[] && newName != requester
    requires Rename(s0.users, oldName, newName, requester).1 && oldName != requester
    requires token in s0.sessions && s0.sessions[token].name == oldName
    ensures IsRun(states, events) && |events| == 4 && states[0] == s0
    ensures events == [
      EvRename(1, oldName, newName, requester), EvDelete(2, newName, requester, true), EvPurge(2), EvSweep(1)]
    ensures newName !in states[4].users && !NoSession(states[4], newName)
  {
    events := [EvRename(1, oldName, newName, requester), EvDelete(2, newName, requester, true), EvPurge(2), EvSweep(1)];
    var s1 := Next(s0, events[0]).value;
    assert IsAdmin(s1.users, requester);
    var s2 := Next(s1, events[1]).value;
    var s3 := Next(s2, events[2]).value;
    assert s3.sessions[token].name == oldName && s3.pending[1] == Sweep(oldName, newName);
    var s4 := Next(s3, events[3]).value;
    assert s4.sessions[token].name == newName;
    states := [s0, s1, s2, s3, s4];
    assert StepAt(states, events, 0) && StepAt(states, events, 1);
    assert StepAt(states, events, 2) && StepAt(states, events, 3);
  }

  // ---- whose word counts ----

  /** On whose authority a step acts, where the manager itself checks it. */
  function RequestedBy(e: Event): Option<Name> {
    match e
    case EvDelete(_, _, r, _) => Some(r)
    case EvRename(_, _, _, r) => Some(r)
    case EvSetAdmin(_, _, r, _) => Some(r)
    case EvReset(_, _, r) => Some(r)
    case _ => None
  }

  /** In every run, a deletion, rename, promotion, demotion or reset asked for by anybody but an admin
      changes nothing at all. */
  lemma UnauthorisedStepChangesNothing(states: seq<State>, events: seq<Event>, i: nat)
    requires IsRun(states, events) && i < |events|
    requires RequestedBy(events[i]).Some? && !IsAdmin(states[i].users, RequestedBy(events[i]).value)
    ensures states[i + 1] == states[i]
  {
    assert StepAt(states, events, i);
  }

  /** How a name that is not an admin's can become one in a single step. */
  predicate MakesAdmin(s: State, e: Event, name: Name) {
    || (e.EvSetAdmin? && e.name == name && e.isAdmin && IsAdmin(s.users, e.requester))
    || (e.EvCreate? && e.name == name && e.isAdmin && name !in s.users)
    || (e.EvRename? && e.newName == name && IsAdmin(s.users, e.oldName) && IsAdmin(s.users, e.requester))
  }

  lemma StepMakesAdmin(s: State, e: Event, name: Name)
    requires Next(s, e).Some? && !IsAdmin(s.users, name) && IsAdmin(Next(s, e).value.users, name)
    ensures MakesAdmin(s, e, name)
  {
  }

  /** Nobody makes himself an admin: whoever was not one and is one later in a run was promoted by
      somebody who was an admin at that moment, or created as an admin, or is an admin who was renamed
      by an admin. */
  lemma {:induction false} AdminsComeFromAdmins(states: seq<State>, events: seq<Event>, name: Name, i: nat, j: nat)
    returns (k: nat)
    requires IsRun(states, events) && i <= j < |states|
    requires !IsAdmin(states[i].users, name) && IsAdmin(states[j].users, name)
    ensures i <= k < j && !IsAdmin(states[k].users, name) && MakesAdmin(states[k], events[k], name)
    decreases j
  {
    k := j - 1;
    assert StepAt(states, events, k);
    if IsAdmin(states[k].users, name) {
      k := AdminsComeFromAdmins(states, events, name, i, k);
    } else {
      StepMakesAdmin(states[k], events[k], name);
    }
  }

  // ---- what starts and ends a session ----

  /** A session ends only if it is revoked, if all sessions of its user are swept or reset, or if it is
      found expired or without its user. */
  predicate EndsSession(s: State, e: Event, t: Token)
    requires t in s.sessions
  {
    var session := s.sessions[t];
    || e == EvRevoke(t)
    || e == EvRevokeUser(session.name)
    || (e.EvPurge? && e.call in s.pending && s.pending[e.call] == Purge(session.name))
    || (e.EvWriteNext? && s.hold == ResetRevoke(session.name))
    || (e.EvValidate? && e.token == t && t != "" && (e.now > session.expiry || session.name !in s.users))
  }

  predicate RenamesSession(s: State, e: Event, t: Token)
    requires t in s.sessions
  {
    e.EvSweep? && e.call in s.pending && s.pending[e.call].Sweep? && s.pending[e.call].oldName == s.sessions[t].name
  }

  /** Each session lives until one of these steps, which always ends it, and changes only its user's
      name, and only with a rename of that user. */
  lemma SessionLivesUntil(s: State, e: Event, t: Token)
    requires Next(s, e).Some? && t in s.sessions
    requires !(e.EvInsertSession? && e.token == t)
    ensures t !in Next(s, e).value.sessions <==> EndsSession(s, e, t)
    ensures t in Next(s, e).value.sessions ==>
      Next(s, e).value.sessions[t]
      == if RenamesSession(s, e, t) then Session(s.pending[e.call].newName, s.sessions[t].expiry) else s.sessions[t]
  {
  }

  /** Whoever is being logged in, promoted or demoted is in the map. */
  predicate HolderIsUser(s: State) {
    s.hold.Free? || s.hold.ResetRevoke? || s.hold.name in s.users
  }

  lemma {:induction false} RunKeepsHolder(states: seq<State>, events: seq<Event>, i: nat)
    requires IsRun(states, events) && i < |states| && states[0].hold.Free?
    ensures HolderIsUser(states[i])
  {
    if i > 0 {
      RunKeepsHolder(states, events, i - 1);
      assert StepAt(states, events, i - 1);
    }
  }

  /** In every state of every run the holder of the lock can do its next step, and after at most two
      steps the lock is free. */
  lemma LockIsReleased(states: seq<State>, events: seq<Event>, i: nat, token: Token)
    requires IsRun(states, events) && i < |states| && states[0].hold.Free? && !states[i].hold.Free?
    ensures var s := states[i];
            var next := if s.hold.LoginInsert? then Next(s, EvInsertSession(token, 0)) else WriteNext(s);
            && next.Some?
            && (next.value.hold.Free? || (WriteNext(next.value).Some? && WriteNext(next.value).value.hold.Free?))
  {
    RunKeepsHolder(states, events, i);
  }

  /** In every run a new session belongs to a user who is in the map at the moment it is issued. */
  lemma SessionsAreIssuedToUsers(states: seq<State>, events: seq<Event>, i: nat, t: Token)
    requires IsRun(states, events) && i < |events| && states[0].hold.Free?
    requires t !in states[i].sessions && t in states[i + 1].sessions
    ensures events[i].EvInsertSession? && events[i].token == t
    ensures states[i + 1].sessions[t].name in states[i].users && states[i + 1].sessions[t].name in states[i + 1].users
    ensures states[i + 1].sessions[t].expiry == events[i].expiry
  {
    RunKeepsHolder(states, events, i);
    assert StepAt(states, events, i);
  }

  /** A reset leaves the user without a session, before anybody else can take the lock. */
  lemma ResetEndsSessions(s: State, name: Name, password: string, requester: Name)
    requires s.hold.Free? && ResetPassword(s.users, name, password, requester).1
    ensures var s1 := Next(s, EvReset(name, password, requester));
            && s1.Some? && !s1.value.hold.Free? && name in s1.value.users && s1.value.users[name].password == password
            && var s2 := WriteNext(s1.value);
               s2.Some? && s2.value.hold.Free? && NoSession(s2.value, name) && s2.value.users == s1.value.users
  {
  }
}
