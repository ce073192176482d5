/** The per-owner mutex rows that serialise changes to mail accounts on a row-locking database.
    Every transaction locks its owner keys in ascending order; a missing row is inserted, possibly
    in a race with another transaction. */
module OwnerLocks {
  import opened Prelude

  type Key = string

  // ---- the canonical order ----

  /** Lexicographic order by code point. */
  predicate Less(a: Key, b: Key) {
    b != [] && (a == [] || a[0] < b[0] || (a[0] == b[0] && Less(a[1..], b[1..])))
  }

  lemma {:induction false} LessIrreflexive(a: Key)
    ensures !Less(a, a)
  {
    if a != [] {
      LessIrreflexive(a[1..]);
    }
  }

  lemma {:induction false} LessTransitive(a: Key, b: Key, c: Key)
    requires Less(a, b) && Less(b, c)
    ensures Less(a, c)
  {
    if a != [] && a[0] == b[0] == c[0] {
      LessTransitive(a[1..], b[1..], c[1..]);
    }
  }

  lemma {:induction false} LessTotal(a: Key, b: Key)
    ensures Less(a, b) || a == b || Less(b, a)
  {
    if a != [] && b != [] && a[0] == b[0] {
      LessTotal(a[1..], b[1..]);
      assert a == [a[0]] + a[1..] && b == [b[0]] + b[1..];
    }
  }

  predicate Ascending(keys: seq<Key>) {
    forall i, j :: 0 <= i < j < |keys| ==> Less(keys[i], keys[j])
  }

  /** A missing owner and the empty one are one scope. */
  function KeyOf(owner: Option<string>): Key {
    if owner.Some? then owner.value else ""
  }

  /** Nobody in particular is one owner, and every other owner is his own. */
  lemma KeysAreScopes(a: Option<string>, b: Option<string>)
    ensures KeyOf(a) == KeyOf(b) <==> a == b || (a in {None, Some("")} && b in {None, Some("")})
    ensures KeySet([]) == KeySet([None]) == KeySet([Some("")])
  {
    var none: Option<string> := None;
    assert none in [none] && Some("") in [Some("")];
    assert KeySet([none]) == {""} && KeySet([Some("")]) == {""};
  }

  function KeySet(owners: seq<Option<string>>): set<Key> {
    if owners == [] then {""} else set o | o in owners :: KeyOf(o)
  }

  /** The keys a call locks: each scope once, in ascending order, whatever the order of the arguments. */
  method OwnerKeys(owners: seq<Option<string>>) returns (keys: seq<Key>)
    ensures Ascending(keys) && keys != []
    ensures (set k | k in keys) == KeySet(owners)
  {
    if owners == [] {
      return [""];
    }
    keys := [];
    for i := 0 to |owners|
      invariant Ascending(keys)
      invariant (set k | k in keys) == set o | o in owners[..i] :: KeyOf(o)
    {
      ghost var before := keys;
      keys := InsertKey(keys, KeyOf(owners[i]));
      assert (set k | k in keys) == (set k | k in before) + {KeyOf(owners[i])};
      assert owners[..i + 1] == owners[..i] + [owners[i]];
    }
    assert owners[..|owners|] == owners;
    assert KeyOf(owners[0]) in KeySet(owners);
    assert keys != [];
  }

  method InsertKey(keys: seq<Key>, key: Key) returns (result: seq<Key>)
    requires Ascending(keys)
    ensures Ascending(result)
    ensures forall k :: k in result <==> k in keys || k == key
  {
    var i := 0;
    while i < |keys| && Less(keys[i], key)
      invariant 0 <= i <= |keys|
      invariant forall j :: 0 <= j < i ==> Less(keys[j], key)
    {
      i := i + 1;
    }
    if i < |keys| && keys[i] == key {
      return keys;
    }
    if i < |keys| {
      LessTotal(keys[i], key);
      forall j | i < j < |keys| ensures Less(key, keys[j]) {
        LessTransitive(key, keys[i], keys[j]);
      }
    }
    result := keys[..i] + [key] + keys[i..];
    assert keys == keys[..i] + keys[i..];
  }

  // ---- transactions ----

  /** Where a transaction is with its next key: looking for the row, inserting it, or locking the
      row that somebody else turned out to have inserted first. */
  datatype Phase = Lookup | Insert | Relock

  /** `held` counts the keys already locked; `inserted` are the rows this transaction created. */
  datatype Tx = Tx(keys: seq<Key>, held: nat, inserted: set<Key>, phase: Phase, ended: bool)

  /** `rows` are the committed mutex rows. */
  datatype Db = Db(rows: set<Key>, txs: seq<Tx>)

  function Begin(keys: seq<Key>): Tx {
    Tx(keys, 0, {}, Lookup, false)
  }

  predicate Holds(tx: Tx, k: Key) {
    !tx.ended && tx.held <= |tx.keys| && k in tx.keys[..tx.held]
  }

  predicate HeldElsewhere(db: Db, t: nat, k: Key) {
    exists u | 0 <= u < |db.txs| :: u != t && Holds(db.txs[u], k)
  }

  predicate Active(db: Db, t: nat) {
    t < |db.txs| && !db.txs[t].ended
  }

  /** Active and still without all of its keys. */
  predicate Wanting(db: Db, t: nat) {
    Active(db, t) && db.txs[t].held < |db.txs[t].keys|
  }

  function Wanted(db: Db, t: nat): Key
    requires Wanting(db, t)
  {
    db.txs[t].keys[db.txs[t].held]
  }

  function Acquired(tx: Tx): Tx {
    tx.(held := tx.held + 1, phase := Lookup)
  }

  /** The next step of transaction `t`, or `None` while it waits for another one. */
  function Advance(db: Db, t: nat): Option<Db> {
    if !Active(db, t) then None
    else
      var tx := db.txs[t];
      if tx.held >= |tx.keys| then Some(Db(db.rows + tx.inserted, db.txs[t := tx.(ended := true)]))
      else
        var k := tx.keys[tx.held];
        match tx.phase
        case Lookup =>
          if k !in db.rows then Some(db.(txs := db.txs[t := tx.(phase := Insert)]))
          else if HeldElsewhere(db, t, k) then None
          else Some(db.(txs := db.txs[t := Acquired(tx)]))
        case Insert =>
          if k in db.rows then Some(db.(txs := db.txs[t := tx.(phase := Relock)]))
          else if HeldElsewhere(db, t, k) then None
          else Some(db.(txs := db.txs[t := Acquired(tx).(inserted := tx.inserted + {k})]))
        case Relock =>
          if k !in db.rows then Abort(db, t)
          else if HeldElsewhere(db, t, k) then None
          else Some(db.(txs := db.txs[t := Acquired(tx)]))
  }

  /** A rollback: locks and uncommitted rows are gone. */
  function Abort(db: Db, t: nat): Option<Db> {
    if !Active(db, t) then None
    else Some(db.(txs := db.txs[t := db.txs[t].(ended := true, inserted := {})]))
  }

  datatype Event = Forward(t: nat) | Rollback(t: nat)

  function Next(db: Db, e: Event): Option<Db> {
    match e
    case Forward(t) => Advance(db, t)
    case Rollback(t) => Abort(db, t)
  }

  /** The database after the events, if each of them could be taken. */
  function Run(db: Db, events: seq<Event>): Option<Db>
    decreases |events|
  {
    if events == [] then Some(db)
    else
      var before := Run(db, events[..|events| - 1]);
      if before.None? then None else Next(before.value, events[|events| - 1])
  }

  // ---- what every reachable state keeps ----

  predicate TxOk(db: Db, tx: Tx) {
    && Ascending(tx.keys)
    && tx.held <= |tx.keys|
    && (!tx.ended ==>
          && (forall k | k in tx.keys[..tx.held] :: k in db.rows || k in tx.inserted)
          && (tx.phase.Relock? ==> tx.held < |tx.keys| && tx.keys[tx.held] in db.rows))
  }

  /** No key is held twice. */
  ghost predicate Exclusive(db: Db) {
    forall t, u, k | 0 <= t < u < |db.txs| && Holds(db.txs[t], k) :: !Holds(db.txs[u], k)
  }

  ghost predicate Inv(db: Db) {
    && (forall t | 0 <= t < |db.txs| :: TxOk(db, db.txs[t]))
    && Exclusive(db)
  }

  /** A step changes one transaction, adds rows only, and locks only what nobody else holds. */
  lemma StepChanges(db: Db, e: Event)
    requires Next(db, e).Some? && TxOk(db, db.txs[e.t])
    ensures var db' := Next(db, e).value;
            && e.t < |db.txs| == |db'.txs| && db.rows <= db'.rows
            && db'.txs == db.txs[e.t := db'.txs[e.t]]
            && TxOk(db', db'.txs[e.t])
            && forall k | Holds(db'.txs[e.t], k) :: Holds(db.txs[e.t], k) || !HeldElsewhere(db, e.t, k)
  {
    var tx := db.txs[e.t];
    if tx.held < |tx.keys| {
      assert tx.keys[..tx.held + 1] == tx.keys[..tx.held] + [tx.keys[tx.held]];
    }
  }

  lemma StepKeepsInv(db: Db, e: Event)
    requires Inv(db) && Next(db, e).Some?
    ensures Inv(Next(db, e).value)
  {
    StepChanges(db, e);
    var db' := Next(db, e).value;
    forall t, u, k | 0 <= t < u < |db'.txs| && Holds(db'.txs[t], k) ensures !Holds(db'.txs[u], k) {
    }
    assert forall t | 0 <= t < |db.txs| :: TxOk(db, db.txs[t]);
  }

  /** The transactions waiting for a key above the one `t` waits for. */
  function WaitingAbove(db: Db, t: nat): set<nat>
    requires Wanting(db, t)
  {
    set u | 0 <= u < |db.txs| && Wanting(db, u) && Less(Wanted(db, t), Wanted(db, u))
  }

  /** Whoever blocks `t` is either about to commit or waits for a greater key; since keys cannot
      rise for ever, somebody can step. */
  lemma {:induction false} SomebodyCanAdvance(db: Db, t: nat) returns (u: nat)
    requires Inv(db) && Active(db, t)
    ensures Active(db, u) && Advance(db, u).Some?
    decreases if Wanting(db, t) then WaitingAbove(db, t) else {}
  {
    if Advance(db, t).Some? {
      return t;
    }
    var k := Wanted(db, t);
    var h :| 0 <= h < |db.txs| && h != t && Holds(db.txs[h], k);
    if !Wanting(db, h) {
      return h;
    }
    var i :| 0 <= i < db.txs[h].held && db.txs[h].keys[i] == k;
    assert Less(k, Wanted(db, h));
    forall w | w in WaitingAbove(db, h) ensures w in WaitingAbove(db, t) {
      LessTransitive(k, Wanted(db, h), Wanted(db, w));
    }
    LessIrreflexive(Wanted(db, h));
    assert h in WaitingAbove(db, t) && h !in WaitingAbove(db, h);
    u := SomebodyCanAdvance(db, h);
  }

  ghost predicate Fresh(db: Db) {
    forall t | 0 <= t < |db.txs| :: Ascending(db.txs[t].keys) && db.txs[t] == Begin(db.txs[t].keys)
  }

  lemma {:induction false} RunKeepsInv(db: Db, events: seq<Event>)
    requires Fresh(db) && Run(db, events).Some?
    ensures Inv(Run(db, events).value)
    decreases |events|
  {
    if events != [] {
      RunKeepsInv(db, events[..|events| - 1]);
      StepKeepsInv(Run(db, events[..|events| - 1]).value, events[|events| - 1]);
    }
  }

  /** No deadlock: for any number of transactions with any keys, over existing or missing mutex
      rows, with rollbacks at any time, an unfinished transaction means that one can go on; and no
      key is ever held by two. */
  lemma NeverDeadlocked(db: Db, events: seq<Event>, t: nat) returns (u: nat)
    requires Fresh(db) && Run(db, events).Some? && Active(Run(db, events).value, t)
    ensures Exclusive(Run(db, events).value)
    ensures Active(Run(db, events).value, u) && Advance(Run(db, events).value, u).Some?
  {
    RunKeepsInv(db, events);
    u := SomebodyCanAdvance(Run(db, events).value, t);
  }

  /** A transaction that commits holds all of its keys at that moment, and leaves a row for each of
      them: whatever it does in between, it does under all its locks. */
  lemma CommitsUnderAllLocks(db: Db, events: seq<Event>, t: nat)
    requires Fresh(db) && Run(db, events).Some? && Next(Run(db, events).value, Forward(t)).Some?
    requires Next(Run(db, events).value, Forward(t)).value.txs[t].ended
    ensures var now, after := Run(db, events).value, Next(Run(db, events).value, Forward(t)).value;
            forall k | k in now.txs[t].keys :: Holds(now.txs[t], k) && k in after.rows && !HeldElsewhere(now, t, k)
  {
    RunKeepsInv(db, events);
    var now := Run(db, events).value;
    assert TxOk(now, now.txs[t]);
    assert now.txs[t].keys[..now.txs[t].held] == now.txs[t].keys;
  }

  // ---- every run ends ----

  /** An upper bound on the steps a transaction has left. */
  function Left(tx: Tx): nat {
    if tx.ended then 0
    else
      var keysLeft := if tx.held < |tx.keys| then |tx.keys| - tx.held else 0;
      1 + 3 * keysLeft - (if keysLeft == 0 || tx.phase.Lookup? then 0 else if tx.phase.Insert? then 1 else 2)
  }

  function Total(txs: seq<Tx>): nat {
    if txs == [] then 0 else Left(txs[0]) + Total(txs[1..])
  }

  lemma {:induction false} TotalUpdate(txs: seq<Tx>, t: nat, tx: Tx)
    requires t < |txs|
    ensures Total(txs[t := tx]) == Total(txs) - Left(txs[t]) + Left(tx)
  {
    if t > 0 {
      TotalUpdate(txs[1..], t - 1, tx);
      assert txs[t := tx][1..] == txs[1..][t - 1 := tx];
    } else {
      assert txs[t := tx][1..] == txs[1..];
    }
  }

  lemma StepDescends(db: Db, e: Event)
    requires Next(db, e).Some?
    ensures Total(Next(db, e).value.txs) < Total(db.txs)
  {
    var tx' := Next(db, e).value.txs[e.t];
    TotalUpdate(db.txs, e.t, tx');
    assert Next(db, e).value.txs == db.txs[e.t := tx'];
  }

  /** A run takes at most as many steps as the transactions have at its start; so a scheduler that
      keeps advancing whoever can go on finishes them all. */
  lemma {:induction false} RunIsBounded(db: Db, events: seq<Event>)
    requires Run(db, events).Some?
    ensures |events| + Total(Run(db, events).value.txs) <= Total(db.txs)
    decreases |events|
  {
    if events != [] {
      RunIsBounded(db, events[..|events| - 1]);
      StepDescends(Run(db, events[..|events| - 1]).value, events[|events| - 1]);
    }
  }
}
