/** Creating a user's default calendar on first use.  Every owner has an endless list of stable
    calendar ids, its slots; the default takes the first slot that no other owner occupies. */
module DefaultCalendar {
  import opened Prelude

  type Owner = string
  type Id = nat

  /** The stable id of an owner's slot; a name-based UUID in the code. */
  type Slots = (Owner, nat) -> Id

  /** Calendars by primary key, with their owner; legacy rows have none. */
  type Calendars = map<Id, Option<Owner>>

  ghost predicate Distinct(slot: Slots, owner: Owner) {
    forall j: nat, k: nat | j < k :: slot(owner, j) != slot(owner, k)
  }

  ghost predicate OwnedBy(rows: Calendars, id: Id, owner: Owner) {
    id in rows && rows[id] == Some(owner)
  }

  ghost predicate HasCalendar(rows: Calendars, owner: Owner) {
    exists id | id in rows :: rows[id] == Some(owner)
  }

  /** The first `k` slots of `owner` are taken by other owners. */
  ghost predicate TakenByOthers(slot: Slots, rows: Calendars, owner: Owner, k: nat) {
    forall j: nat | j < k :: slot(owner, j) in rows && rows[slot(owner, j)] != Some(owner)
  }

  lemma {:induction false} TakenSlotsAreCounted(slot: Slots, rows: Calendars, owner: Owner, k: nat)
    returns (ids: set<Id>)
    requires Distinct(slot, owner) && TakenByOthers(slot, rows, owner, k)
    ensures ids == (set j | 0 <= j < k :: slot(owner, j)) && ids <= rows.Keys && |ids| == k
    ensures k <= |rows|
  {
    if k == 0 {
      ids := {};
    } else {
      var before := TakenSlotsAreCounted(slot, rows, owner, k - 1);
      ids := before + {slot(owner, k - 1)};
    }
    SubsetSize(ids, rows.Keys);
  }

  // ---- one caller with the writer reservation (SQLite) ----

  class CalendarDb {
    var rows: Calendars

    /** An existing calendar is returned as it is; otherwise the first slot not taken by another
        owner is inserted.  The slot loop ends because finitely many ids are occupied. */
    method EnsureDefault(slot: Slots, owner: Owner) returns (id: Id)
      requires Distinct(slot, owner)
      modifies this
      ensures OwnedBy(rows, id, owner)
      ensures old(HasCalendar(rows, owner)) ==> rows == old(rows)
      ensures !old(HasCalendar(rows, owner)) ==>
        exists k :: id == slot(owner, k) && TakenByOthers(slot, old(rows), owner, k)
                    && id !in old(rows) && rows == old(rows)[id := Some(owner)]
    {
      if i :| i in rows && rows[i] == Some(owner) {
        return i;
      }
      var k := 0;
      id := slot(owner, k);
      ghost var counted := TakenSlotsAreCounted(slot, rows, owner, k);
      while id in rows
        invariant rows == old(rows) && id == slot(owner, k)
        invariant TakenByOthers(slot, rows, owner, k) && k <= |rows|
        decreases |rows| - k
      {
        if rows[id] == Some(owner) {
          return;
        }
        k := k + 1;
        id := slot(owner, k);
        counted := TakenSlotsAreCounted(slot, rows, owner, k);
      }
      rows := rows[id := Some(owner)];
    }
  }

  // ---- any number of concurrent callers ----

  /** Where a caller's transaction is.  `Pending(k)` has inserted its slot `k` and not yet
      committed; `Got` has found a committed calendar of its owner. */
  datatype Pc = Start | Try(k: nat) | Pending(k: nat) | Got(id: Id) | Done(id: Id) | Failed

  datatype Caller = Caller(owner: Owner, pc: Pc)

  datatype State = State(rows: Calendars, callers: seq<Caller>)

  /** `Miss` may also happen although a row has just been committed: the lookup reads a snapshot. */
  datatype Event = Hit(c: nat, id: Id) | Miss(c: nat) | Insert(c: nat) | Commit(c: nat) | Rollback(c: nat)

  predicate PendingElsewhere(slot: Slots, s: State, c: nat, id: Id) {
    exists d | 0 <= d < |s.callers| ::
      d != c && s.callers[d].pc.Pending? && slot(s.callers[d].owner, s.callers[d].pc.k) == id
  }

  function SetPc(s: State, c: nat, pc: Pc): State
    requires c < |s.callers|
  {
    s.(callers := s.callers[c := s.callers[c].(pc := pc)])
  }

  /** One step of caller `e.c`; `None` while it must wait for another transaction.  Under SQLite the
      steps from the second lookup to the commit of one caller are not interleaved with another's. */
  function Next(slot: Slots, s: State, e: Event): Option<State> {
    if e.c >= |s.callers| then None
    else
      var me := s.callers[e.c];
      match e
      case Hit(c, id) =>
        if (me.pc.Start? || me.pc == Try(0)) && id in s.rows && s.rows[id] == Some(me.owner)
        then Some(SetPc(s, c, Got(id))) else None
      case Miss(c) => if me.pc.Start? then Some(SetPc(s, c, Try(0))) else None
      case Insert(c) =>
        if !me.pc.Try? then None
        else
          var id := slot(me.owner, me.pc.k);
          if id in s.rows then
            Some(SetPc(s, c, if s.rows[id] == Some(me.owner) then Got(id) else Try(me.pc.k + 1)))
          else if PendingElsewhere(slot, s, c, id) then None
          else Some(SetPc(s, c, Pending(me.pc.k)))
      case Commit(c) =>
        if me.pc.Pending? then
          var id := slot(me.owner, me.pc.k);
          Some(SetPc(s, c, Done(id)).(rows := s.rows[id := Some(me.owner)]))
        else if me.pc.Got? then Some(SetPc(s, c, Done(me.pc.id)))
        else None
      case Rollback(c) => if me.pc.Done? then None else Some(SetPc(s, c, Failed))
  }

  function Run(slot: Slots, s: State, events: seq<Event>): Option<State>
    decreases |events|
  {
    if events == [] then Some(s)
    else
      var before := Run(slot, s, events[..|events| - 1]);
      if before.None? then None else Next(slot, before.value, events[|events| - 1])
  }

  /** What the position of one caller says about the committed rows. */
  ghost predicate CallerOk(slot: Slots, s: State, c: Caller) {
    match c.pc
    case Try(k) => TakenByOthers(slot, s.rows, c.owner, k)
    case Pending(k) => TakenByOthers(slot, s.rows, c.owner, k) && slot(c.owner, k) !in s.rows
    case Got(id) => OwnedBy(s.rows, id, c.owner)
    case Done(id) => OwnedBy(s.rows, id, c.owner)
    case _ => true
  }

  ghost predicate Inv(slot: Slots, s: State) {
    && (forall c | 0 <= c < |s.callers| :: CallerOk(slot, s, s.callers[c]))
    && (forall c | 0 <= c < |s.callers| && s.callers[c].pc.Pending? ::
          !PendingElsewhere(slot, s, c, slot(s.callers[c].owner, s.callers[c].pc.k)))
  }

  /** Every calendar of `owner` sits in the first slot that others have left. */
  ghost predicate InFirstSlot(slot: Slots, s: State, owner: Owner) {
    forall id | OwnedBy(s.rows, id, owner) ::
      exists k: nat :: id == slot(owner, k) && TakenByOthers(slot, s.rows, owner, k)
  }

  /** A step changes one caller and at most adds the calendar that this caller had pending. */
  lemma StepChanges(slot: Slots, s: State, e: Event)
    requires Inv(slot, s) && Next(slot, s, e).Some?
    ensures var s' := Next(slot, s, e).value;
            && |s'.callers| == |s.callers| && e.c < |s.callers|
            && s'.callers == s.callers[e.c := s'.callers[e.c]] && s'.callers[e.c].owner == s.callers[e.c].owner
            && (s'.rows == s.rows
                || (s.callers[e.c].pc.Pending? && s'.callers[e.c].pc.Done?
                    && var id := slot(s.callers[e.c].owner, s.callers[e.c].pc.k);
                       id !in s.rows && s'.rows == s.rows[id := Some(s.callers[e.c].owner)]))
            && (s'.callers[e.c].pc.Pending? ==>
                  !PendingElsewhere(slot, s, e.c, slot(s'.callers[e.c].owner, s'.callers[e.c].pc.k)))
            && CallerOk(slot, s', s'.callers[e.c])
  {
    var me := s.callers[e.c];
    assert CallerOk(slot, s, me);
    var s' := Next(slot, s, e).value;
  }

  lemma OtherCallersStay(slot: Slots, s: State, s': State, c: Caller, id: Id, owner: Owner)
    requires CallerOk(slot, s, c) && id !in s.rows && s'.rows == s.rows[id := Some(owner)]
    requires c.pc.Pending? ==> slot(c.owner, c.pc.k) != id
    ensures CallerOk(slot, s', c)
  {
  }

  lemma StepKeepsInv(slot: Slots, s: State, e: Event)
    requires Inv(slot, s) && Next(slot, s, e).Some?
    ensures Inv(slot, Next(slot, s, e).value)
  {
    StepChanges(slot, s, e);
    var s' := Next(slot, s, e).value;
    forall c | 0 <= c < |s'.callers| ensures CallerOk(slot, s', s'.callers[c]) {
      if c != e.c && s'.rows != s.rows {
        assert CallerOk(slot, s, s.callers[c]);
        var id := slot(s.callers[e.c].owner, s.callers[e.c].pc.k);
        OtherCallersStay(slot, s, s', s.callers[c], id, s.callers[e.c].owner);
      }
    }
    forall c | 0 <= c < |s'.callers| && s'.callers[c].pc.Pending?
      ensures !PendingElsewhere(slot, s', c, slot(s'.callers[c].owner, s'.callers[c].pc.k))
    {
    }
  }

  lemma StepKeepsFirstSlot(slot: Slots, s: State, e: Event, owner: Owner)
    requires Inv(slot, s) && Next(slot, s, e).Some? && InFirstSlot(slot, s, owner)
    ensures InFirstSlot(slot, Next(slot, s, e).value, owner)
  {
    StepChanges(slot, s, e);
    var s' := Next(slot, s, e).value;
    assert CallerOk(slot, s, s.callers[e.c]);
    forall id | OwnedBy(s'.rows, id, owner)
      ensures exists k: nat :: id == slot(owner, k) && TakenByOthers(slot, s'.rows, owner, k)
    {
      if OwnedBy(s.rows, id, owner) {
        var k: nat :| id == slot(owner, k) && TakenByOthers(slot, s.rows, owner, k);
        assert TakenByOthers(slot, s'.rows, owner, k);
      } else {
        var k := s.callers[e.c].pc.k;
        assert id == slot(owner, k) && TakenByOthers(slot, s'.rows, owner, k);
      }
    }
  }

  ghost predicate Idle(s: State) {
    forall c | 0 <= c < |s.callers| :: s.callers[c].pc.Start?
  }

  lemma {:induction false} RunKeepsInv(slot: Slots, s: State, events: seq<Event>, owner: Owner)
    requires Idle(s) && !HasCalendar(s.rows, owner) && Run(slot, s, events).Some?
    ensures Inv(slot, Run(slot, s, events).value)
    ensures InFirstSlot(slot, Run(slot, s, events).value, owner)
    decreases |events|
  {
    if events != [] {
      RunKeepsInv(slot, s, events[..|events| - 1], owner);
      var before := Run(slot, s, events[..|events| - 1]).value;
      StepKeepsInv(slot, before, events[|events| - 1]);
      StepKeepsFirstSlot(slot, before, events[|events| - 1], owner);
    }
  }

  lemma OneCalendar(slot: Slots, s: State, owner: Owner, a: Id, b: Id)
    requires InFirstSlot(slot, s, owner) && OwnedBy(s.rows, a, owner) && OwnedBy(s.rows, b, owner)
    ensures a == b
  {
    var j: nat :| a == slot(owner, j) && TakenByOthers(slot, s.rows, owner, j);
    var k: nat :| b == slot(owner, k) && TakenByOthers(slot, s.rows, owner, k);
  }

  /** First use converges: however any number of callers for any owners interleave, commit and roll
      back, and whatever ids other owners occupy, all callers that have committed for an owner who
      had no calendar hold the same one, and it is the only calendar of that owner. */
  lemma FirstUseConverges(slot: Slots, s: State, events: seq<Event>, c: nat, d: nat)
    requires Idle(s) && Run(slot, s, events).Some?
    requires var s' := Run(slot, s, events).value;
             && c < |s'.callers| && d < |s'.callers| && s'.callers[c].owner == s'.callers[d].owner
             && s'.callers[c].pc.Done? && s'.callers[d].pc.Done?
             && !HasCalendar(s.rows, s'.callers[c].owner)
    ensures var s' := Run(slot, s, events).value;
            var id := s'.callers[c].pc.id;
            && s'.callers[d].pc.id == id
            && forall other :: OwnedBy(s'.rows, other, s'.callers[c].owner) <==> other == id
  {
    var s' := Run(slot, s, events).value;
    var owner := s'.callers[c].owner;
    RunKeepsInv(slot, s, events, owner);
    assert CallerOk(slot, s', s'.callers[c]) && CallerOk(slot, s', s'.callers[d]);
    forall a, b | OwnedBy(s'.rows, a, owner) && OwnedBy(s'.rows, b, owner) ensures a == b {
      OneCalendar(slot, s', owner, a, b);
    }
  }

  /** Nobody waits for ever: in any state, an unfinished caller means that some caller can take a step
      other than giving up. */
  lemma SomebodyCanStep(slot: Slots, s: State, c: nat) returns (e: Event)
    requires c < |s.callers| && !s.callers[c].pc.Done? && !s.callers[c].pc.Failed?
    ensures Next(slot, s, e).Some? && !e.Rollback?
  {
    var me := s.callers[c];
    match me.pc
    case Start => e := Miss(c);
    case Try(k) =>
      var id := slot(me.owner, k);
      if id !in s.rows && PendingElsewhere(slot, s, c, id) {
        var d :| 0 <= d < |s.callers| && d != c && s.callers[d].pc.Pending?
                 && slot(s.callers[d].owner, s.callers[d].pc.k) == id;
        e := Commit(d);
      } else {
        e := Insert(c);
      }
    case _ => e := Commit(c);
  }

  /** No caller tries more slots than there are calendars, so every slot loop ends. */
  lemma SlotLoopIsBounded(slot: Slots, s: State, events: seq<Event>, c: nat)
    requires Idle(s) && Run(slot, s, events).Some?
    requires c < |Run(slot, s, events).value.callers| && Run(slot, s, events).value.callers[c].pc.Try?
    requires var s' := Run(slot, s, events).value;
             Distinct(slot, s'.callers[c].owner) && !HasCalendar(s.rows, s'.callers[c].owner)
    ensures Run(slot, s, events).value.callers[c].pc.k <= |Run(slot, s, events).value.rows|
  {
    var s' := Run(slot, s, events).value;
    var me := s'.callers[c];
    RunKeepsInv(slot, s, events, me.owner);
    assert CallerOk(slot, s', me);
    var _ := TakenSlotsAreCounted(slot, s'.rows, me.owner, me.pc.k);
  }
}
