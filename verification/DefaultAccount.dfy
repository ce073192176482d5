/** At most one default mail account per owner: the startup migration that establishes it, and the
    user rename that merges two owners without ever breaking the unique index. */
module DefaultAccount {
  import opened Prelude
  import OwnerLocks

  /** Account ids, compared as the database compares them. */
  type Id = nat

  /** `created` is missing on some legacy rows. */
  datatype Account = Account(owner: Option<string>, isDefault: bool, created: Option<int>)

  type Table = map<Id, Account>

  /** The owner scope of the unique index: a missing owner and the empty one are the same. */
  function Scope(a: Account): string {
    if a.owner.Some? then a.owner.value else ""
  }

  function Defaults(t: Table): set<Id> {
    set i | i in t && t[i].isDefault
  }

  /** The unique index: no two default accounts in one owner scope. */
  ghost predicate OneDefaultPerOwner(t: Table) {
    forall i, j | i in Defaults(t) && j in Defaults(t) && i != j :: Scope(t[i]) != Scope(t[j])
  }

  /** ORDER BY created_at, id; where missing dates sort is up to the caller. */
  predicate Earlier(t: Table, nullsFirst: bool, i: Id, j: Id)
    requires i in t && j in t
  {
    var a, b := t[i].created, t[j].created;
    if a.None? != b.None? then a.None? == nullsFirst
    else if a.Some? && a.value != b.value then a.value < b.value
    else i < j
  }

  ghost predicate IsEarliest(t: Table, nullsFirst: bool, ids: set<Id>, i: Id)
    requires ids <= t.Keys
  {
    i in ids && forall j | j in ids && j != i :: Earlier(t, nullsFirst, i, j)
  }

  lemma {:induction false} EarliestExists(t: Table, nullsFirst: bool, ids: set<Id>) returns (first: Id)
    requires ids <= t.Keys && ids != {}
    ensures IsEarliest(t, nullsFirst, ids, first)
    decreases ids
  {
    first :| first in ids;
    if ids != {first} {
      var other := EarliestExists(t, nullsFirst, ids - {first});
      var was := first;
      if Earlier(t, nullsFirst, other, first) {
        first := other;
      }
      forall j | j in ids && j != first ensures Earlier(t, nullsFirst, first, j) {
        assert j == was || j == other || (j in ids - {was} && Earlier(t, nullsFirst, other, j));
      }
    }
  }

  /** What being the earliest means: no other one was created before; one without a date counts only
      where such rows sort first, or if no date is known at all; and the smaller id breaks a tie. */
  lemma EarliestIsOldest(t: Table, nullsFirst: bool, ids: set<Id>, i: Id)
    requires ids <= t.Keys && IsEarliest(t, nullsFirst, ids, i)
    ensures forall j | j in ids && t[j].created.Some? && t[i].created.Some? ::
              t[i].created.value < t[j].created.value || (t[i].created.value == t[j].created.value && i <= j)
    ensures (exists j :: j in ids && t[j].created.Some? != t[i].created.Some?) ==> t[i].created.None? == nullsFirst
    ensures t[i].created.None? ==> forall j | j in ids && t[j].created.None? :: i <= j
  {
  }

  // ---- queries ----

  /** `list` is `ids`, each once, in order. */
  ghost predicate Listing(t: Table, nullsFirst: bool, ids: set<Id>, list: seq<Id>)
    requires ids <= t.Keys
  {
    && (forall i :: i in list <==> i in ids)
    && (forall p, q :: 0 <= p < q < |list| ==> Earlier(t, nullsFirst, list[p], list[q]))
  }

  method OrderByAge(t: Table, nullsFirst: bool, ids: set<Id>) returns (list: seq<Id>)
    requires ids <= t.Keys
    ensures Listing(t, nullsFirst, ids, list)
  {
    list := [];
    var todo := ids;
    while todo != {}
      invariant todo <= ids && Listing(t, nullsFirst, ids - todo, list)
      decreases todo
    {
      var i :| i in todo;
      todo := todo - {i};
      list := InsertByAge(t, nullsFirst, list, i);
    }
    assert ids - todo == ids;
  }

  method InsertByAge(t: Table, nullsFirst: bool, list: seq<Id>, i: Id) returns (result: seq<Id>)
    requires i in t && i !in list && forall j | j in list :: j in t
    requires forall p, q :: 0 <= p < q < |list| ==> Earlier(t, nullsFirst, list[p], list[q])
    ensures forall j :: j in result <==> j in list || j == i
    ensures forall j :: j in result ==> j in t
    ensures forall p, q :: 0 <= p < q < |result| ==> Earlier(t, nullsFirst, result[p], result[q])
  {
    var k := 0;
    while k < |list| && Earlier(t, nullsFirst, list[k], i)
      invariant 0 <= k <= |list|
      invariant forall p :: 0 <= p < k ==> Earlier(t, nullsFirst, list[p], i)
    {
      k := k + 1;
    }
    if k < |list| {
      assert list[k] != i;
      assert Earlier(t, nullsFirst, i, list[k]);
    }
    result := list[..k] + [i] + list[k..];
    assert list == list[..k] + list[k..];
  }

  /** A listing starts with the earliest id, and its tail lists the others. */
  lemma ListingHead(t: Table, nullsFirst: bool, ids: set<Id>, list: seq<Id>)
    requires ids <= t.Keys && Listing(t, nullsFirst, ids, list) && list != []
    ensures IsEarliest(t, nullsFirst, ids, list[0])
    ensures (set i | i in list[1..]) == ids - {list[0]}
  {
    assert list == [list[0]] + list[1..];
    forall j | j in ids && j != list[0] ensures Earlier(t, nullsFirst, list[0], j) {
      var q :| 0 <= q < |list| && list[q] == j;
    }
    forall i | i in list[1..] ensures i != list[0] {
      var q :| 0 <= q < |list[1..]| && list[1..][q] == i;
      assert Earlier(t, nullsFirst, list[0], list[q + 1]);
    }
  }

  // ---- the startup migration ----

  function Cleared(t: Table, ids: set<Id>): Table {
    map i | i in t :: if i in ids then t[i].(isDefault := false) else t[i]
  }

  /** The default accounts of the same owner scope as `i`. */
  function Rivals(t: Table, i: Id): set<Id>
    requires i in t
  {
    set j | j in Defaults(t) && Scope(t[j]) == Scope(t[i])
  }

  /** The defaults that are not the oldest of their owner; rows without a date count as youngest. */
  ghost function Duplicates(t: Table): set<Id> {
    set i | i in Defaults(t) && exists j :: j in Rivals(t, i) && j != i && Earlier(t, false, j, i)
  }

  /** In a listing of the defaults, a row is a duplicate just when its scope was seen before. */
  lemma DuplicateIffSeen(t: Table, rows: seq<Id>, n: nat)
    requires Listing(t, false, Defaults(t), rows) && n < |rows|
    ensures rows[n] in Duplicates(t) <==> exists p :: 0 <= p < n && Scope(t[rows[p]]) == Scope(t[rows[n]])
  {
    var i := rows[n];
    if i in Duplicates(t) {
      var j :| j in Rivals(t, i) && j != i && Earlier(t, false, j, i);
      var p :| 0 <= p < |rows| && rows[p] == j;
      assert p < n;
    }
    assert forall p :: 0 <= p <= n ==> rows[p] in rows;
    forall p | 0 <= p < n && Scope(t[rows[p]]) == Scope(t[i]) ensures i in Duplicates(t) {
      assert rows[p] in Rivals(t, i) && Earlier(t, false, rows[p], i);
    }
  }

  method FindDuplicates(t: Table) returns (duplicates: set<Id>)
    ensures duplicates == Duplicates(t)
  {
    // The query also groups the rows by owner, which makes no difference to the scan.
    var rows := OrderByAge(t, false, Defaults(t));
    var seen: set<string> := {};
    duplicates := {};
    for n := 0 to |rows|
      invariant seen == set p | 0 <= p < n :: Scope(t[rows[p]])
      invariant duplicates == set p | 0 <= p < n && rows[p] in Duplicates(t) :: rows[p]
    {
      DuplicateIffSeen(t, rows, n);
      if Scope(t[rows[n]]) in seen {
        duplicates := duplicates + {rows[n]};
      } else {
        seen := seen + {Scope(t[rows[n]])};
      }
    }
    forall i | i in Duplicates(t) ensures i in duplicates {
      assert i in rows;
    }
  }

  method Migrate(t: Table) returns (result: Table)
    ensures result == Cleared(t, Duplicates(t))
  {
    var duplicates := FindDuplicates(t);
    result := t;
    var todo := duplicates;
    while todo != {}
      invariant todo <= duplicates
      invariant result == Cleared(t, duplicates - todo)
      decreases todo
    {
      var i :| i in todo;
      result := result[i := result[i].(isDefault := false)];
      todo := todo - {i};
    }
    assert duplicates - todo == duplicates;
  }

  /** After the migration the index can be installed, and every owner that had a default keeps exactly
      its oldest one: with the smallest date if it has any dated one, else with the smallest id. */
  lemma MigrationKeepsOldest(t: Table, i: Id) returns (oldest: Id)
    requires i in Defaults(t)
    ensures var t' := Cleared(t, Duplicates(t));
            && OneDefaultPerOwner(t')
            && IsEarliest(t, false, Rivals(t, i), oldest)
            && Rivals(t', i) == {oldest}
    ensures oldest in Rivals(t, i)
    ensures forall j | j in Rivals(t, i) && t[j].created.Some? ::
              && t[oldest].created.Some? && t[oldest].created.value <= t[j].created.value
              && (t[oldest].created.value == t[j].created.value ==> oldest <= j)
    ensures t[oldest].created.None? ==> forall j | j in Rivals(t, i) :: oldest <= j
  {
    var t' := Cleared(t, Duplicates(t));
    assert i in Rivals(t, i);
    oldest := EarliestExists(t, false, Rivals(t, i));
    EarliestIsOldest(t, false, Rivals(t, i), oldest);
    assert oldest in Defaults(t');
    forall j | j in Rivals(t', i) ensures j == oldest {
      assert j in Rivals(t, i) && oldest in Rivals(t, j);
    }
    MigrationInstallsIndex(t);
  }

  /** Nothing but default flags changes, and none is set. */
  lemma MigrationClearsOnlyFlags(t: Table, i: Id)
    requires i in t
    ensures var t' := Cleared(t, Duplicates(t));
            && t'.Keys == t.Keys && t'[i].owner == t[i].owner && t'[i].created == t[i].created
            && (t'[i].isDefault ==> t[i].isDefault)
  {
  }

  /** The scope is the key under which changes to an owner's accounts are serialised: it is the same
      for two accounts exactly if their owners are, a missing and an empty one being one. */
  lemma ScopeIsLockKey(a: Account, b: Account)
    ensures Scope(a) == OwnerLocks.KeyOf(a.owner)
    ensures Scope(a) == Scope(b) <==>
      a.owner == b.owner || (a.owner in {None, Some("")} && b.owner in {None, Some("")})
  {
  }

  lemma MigrationInstallsIndex(t: Table)
    ensures OneDefaultPerOwner(Cleared(t, Duplicates(t)))
  {
    var t' := Cleared(t, Duplicates(t));
    forall a, b | a in Defaults(t') && b in Defaults(t') && a != b ensures Scope(t'[a]) != Scope(t'[b]) {
      assert Scope(t[a]) == Scope(t[b]) ==> a in Rivals(t, b) && b in Rivals(t, a);
    }
  }

  /** A second migration finds nothing to do. */
  lemma MigrationIsIdempotent(t: Table)
    ensures var t' := Cleared(t, Duplicates(t));
            Duplicates(t') == {} && Cleared(t', Duplicates(t')) == t'
  {
    MigrationInstallsIndex(t);
  }

  // ---- rename ----

  /** ASCII lower-casing, as SQLite does it. */
  function Lower(s: string): string {
    seq(|s|, i requires 0 <= i < |s| => if 'A' <= s[i] <= 'Z' then (s[i] as int + 32) as char else s[i])
  }

  /** Lower-casing forgets the case of ASCII letters, and nothing else. */
  lemma LowerMeans(s: string, t: string)
    ensures Lower(s) == Lower(t) <==>
      |s| == |t| && forall i | 0 <= i < |s| ::
        || s[i] == t[i]
        || ('A' <= s[i] <= 'Z' && t[i] as int == s[i] as int + 32)
        || ('A' <= t[i] <= 'Z' && s[i] as int == t[i] as int + 32)
  {
    if Lower(s) == Lower(t) {
      assert |Lower(s)| == |s| && |Lower(t)| == |t|;
      forall i | 0 <= i < |s|
        ensures || s[i] == t[i]
                || ('A' <= s[i] <= 'Z' && t[i] as int == s[i] as int + 32)
                || ('A' <= t[i] <= 'Z' && s[i] as int == t[i] as int + 32)
      {
        assert Lower(s)[i] == Lower(t)[i];
      }
    }
  }

  /** The accounts whose owner is `name` up to case. */
  function OwnedBy(t: Table, name: string): set<Id> {
    set i | i in t && t[i].owner.Some? && Lower(t[i].owner.value) == name
  }

  function DefaultsOf(t: Table, name: string): set<Id> {
    OwnedBy(t, name) * Defaults(t)
  }

  /** The default that survives the merge: the earliest of the destination, else of the source. */
  ghost predicate Survivor(t: Table, nullsFirst: bool, oldName: string, newName: string, i: Id) {
    if DefaultsOf(t, newName) != {} then IsEarliest(t, nullsFirst, DefaultsOf(t, newName), i)
    else IsEarliest(t, nullsFirst, DefaultsOf(t, oldName), i)
  }

  function Moved(t: Table, ids: set<Id>, newName: string): Table {
    map i | i in t :: if i in ids then t[i].(owner := Some(newName)) else t[i]
  }

  /** The defaults on both sides of a merge. */
  function Both(t: Table, oldName: string, newName: string): set<Id> {
    DefaultsOf(t, oldName) + DefaultsOf(t, newName)
  }

  ghost function Losers(t: Table, nullsFirst: bool, oldName: string, newName: string): set<Id> {
    set i | i in Both(t, oldName, newName) && !Survivor(t, nullsFirst, oldName, newName, i)
  }

  ghost function Renamed(t: Table, nullsFirst: bool, oldName: string, newName: string): Table {
    Moved(Cleared(t, Losers(t, nullsFirst, oldName, newName)), OwnedBy(t, oldName), newName)
  }

  ghost predicate AtMostOne(ids: set<Id>) {
    forall i, j | i in ids && j in ids :: i == j
  }

  lemma EarliestIsUnique(t: Table, nullsFirst: bool, ids: set<Id>, i: Id, j: Id)
    requires ids <= t.Keys && IsEarliest(t, nullsFirst, ids, i) && IsEarliest(t, nullsFirst, ids, j)
    ensures i == j
  {
  }

  /** Clearing the losers leaves one default over both owners: the survivor, if there was any. */
  lemma ClearingLeavesSurvivor(t: Table, nullsFirst: bool, oldName: string, newName: string)
    ensures var t' := Cleared(t, Losers(t, nullsFirst, oldName, newName));
            && Both(t', oldName, newName) == Both(t, oldName, newName) - Losers(t, nullsFirst, oldName, newName)
            && AtMostOne(Both(t', oldName, newName))
            && (Both(t, oldName, newName) != {} ==>
                  exists i :: i in Both(t', oldName, newName) && Survivor(t, nullsFirst, oldName, newName, i))
  {
    var t' := Cleared(t, Losers(t, nullsFirst, oldName, newName));
    var side := if DefaultsOf(t, newName) != {} then DefaultsOf(t, newName) else DefaultsOf(t, oldName);
    assert Both(t', oldName, newName) == Both(t, oldName, newName) - Losers(t, nullsFirst, oldName, newName);
    forall i, j | i in Both(t', oldName, newName) && j in Both(t', oldName, newName) ensures i == j {
      EarliestIsUnique(t, nullsFirst, side, i, j);
    }
    if Both(t, oldName, newName) != {} {
      var first := EarliestExists(t, nullsFirst, side);
      assert Survivor(t, nullsFirst, oldName, newName, first);
      assert first in Both(t', oldName, newName);
    }
  }

  /** With one default over both owners, the owner update cannot break the index, however many of
      the source's rows it has reached. */
  lemma PartialMoveKeepsIndex(t: Table, oldName: string, newName: string, done: set<Id>)
    requires OneDefaultPerOwner(t) && AtMostOne(Both(t, oldName, newName))
    requires newName != "" && Lower(newName) == newName && done <= OwnedBy(t, oldName)
    ensures OneDefaultPerOwner(Moved(t, done, newName))
  {
    var t' := Moved(t, done, newName);
    forall i, j | i in Defaults(t') && j in Defaults(t') && i != j ensures Scope(t'[i]) != Scope(t'[j]) {
      if i in done || j in done {
        assert i in Both(t, oldName, newName) || Scope(t'[i]) != newName;
        assert j in Both(t, oldName, newName) || Scope(t'[j]) != newName;
      }
    }
  }

  /** A rename leaves exactly one default for the merged owner if either side had one, namely the
      survivor, none under the old name, and the index intact. */
  lemma RenameLeavesOneDefault(t: Table, nullsFirst: bool, oldName: string, newName: string)
    requires oldName != newName && newName != "" && Lower(newName) == newName
    requires OneDefaultPerOwner(t)
    ensures var t' := Renamed(t, nullsFirst, oldName, newName);
            && OneDefaultPerOwner(t') && OwnedBy(t', oldName) == {}
            && OwnedBy(t', newName) == OwnedBy(t, oldName) + OwnedBy(t, newName)
            && AtMostOne(DefaultsOf(t', newName))
            && (Both(t, oldName, newName) != {} <==>
                  exists i :: i in DefaultsOf(t', newName) && Survivor(t, nullsFirst, oldName, newName, i))
            && (forall i | i in t && i !in OwnedBy(t, oldName) + OwnedBy(t, newName) :: t'[i] == t[i])
  {
    ClearingLeavesSurvivor(t, nullsFirst, oldName, newName);
    var cleared := Cleared(t, Losers(t, nullsFirst, oldName, newName));
    var t' := Renamed(t, nullsFirst, oldName, newName);
    assert OwnedBy(cleared, oldName) == OwnedBy(t, oldName) && OwnedBy(cleared, newName) == OwnedBy(t, newName);
    PartialMoveKeepsIndex(cleared, oldName, newName, OwnedBy(t, oldName));
    assert OwnedBy(t', newName) == OwnedBy(t, oldName) + OwnedBy(t, newName);
    assert DefaultsOf(t', newName) == Both(cleared, oldName, newName);
  }

  /** A rename changes owners and default flags only, sets no flag, and chooses the survivor by age:
      no default of the side it comes from was created before it. */
  lemma RenameKeepsTheRest(t: Table, nullsFirst: bool, oldName: string, newName: string, i: Id)
    requires oldName != newName && i in t
    ensures var t' := Renamed(t, nullsFirst, oldName, newName);
            && t'.Keys == t.Keys && t'[i].created == t[i].created && (t'[i].isDefault ==> t[i].isDefault)
            && t'[i].owner
               == (if t[i].owner.Some? && Lower(t[i].owner.value) == oldName then Some(newName) else t[i].owner)
    ensures Survivor(t, nullsFirst, oldName, newName, i) ==>
      && (i in DefaultsOf(t, newName) <==> DefaultsOf(t, newName) != {})
      && forall j | j in (if i in DefaultsOf(t, newName) then DefaultsOf(t, newName) else DefaultsOf(t, oldName))
                    && t[j].created.Some? && t[i].created.Some? :: t[i].created.value <= t[j].created.value
  {
    if Survivor(t, nullsFirst, oldName, newName, i) {
      var side := if DefaultsOf(t, newName) != {} then DefaultsOf(t, newName) else DefaultsOf(t, oldName);
      EarliestIsOldest(t, nullsFirst, side, i);
    }
  }

  class AccountTable {
    var rows: Table
    /** Every state the rows have been in since the last call began, statement by statement and,
        inside a statement, row by row. */
    ghost var history: seq<Table>

    method Write(i: Id, a: Account)
      requires i in rows
      modifies this
      ensures rows == old(rows)[i := a] && history == old(history) + [rows]
    {
      rows := rows[i := a];
      history := history + [rows];
    }

    /** The accounts part of a user rename.  Whatever the order in which a statement writes its rows,
        the unique index holds after every single write; at the end the source's accounts belong to
        the new name and all defaults of the two owners but the survivor are cleared. */
    method RenameOwner(oldName: string, newName: string, nullsFirst: bool)
      requires oldName != newName && newName != "" && Lower(newName) == newName
      requires OneDefaultPerOwner(rows) && history == []
      modifies this
      ensures forall k :: 0 <= k < |history| ==> OneDefaultPerOwner(history[k])
      ensures rows == Renamed(old(rows), nullsFirst, oldName, newName)
    {
      ghost var t := rows;
      var source := OrderByAge(rows, nullsFirst, DefaultsOf(rows, oldName));
      var dest := OrderByAge(rows, nullsFirst, DefaultsOf(rows, newName));
      var clearList := if dest != [] then dest[1..] + source else if source != [] then source[1..] else [];
      var clear := set i | i in clearList;
      ListsGiveLosers(t, nullsFirst, oldName, newName, source, dest, clear);
      ClearDefaults(clear);
      ClearingLeavesSurvivor(t, nullsFirst, oldName, newName);
      assert OwnedBy(rows, oldName) == OwnedBy(t, oldName);
      MoveOwner(oldName, newName);
    }

    method ClearDefaults(ids: set<Id>)
      requires ids <= rows.Keys && OneDefaultPerOwner(rows)
      requires forall k :: 0 <= k < |history| ==> OneDefaultPerOwner(history[k])
      modifies this
      ensures forall k :: 0 <= k < |history| ==> OneDefaultPerOwner(history[k])
      ensures rows == Cleared(old(rows), ids) && OneDefaultPerOwner(rows)
    {
      var todo := ids;
      while todo != {}
        invariant todo <= ids
        invariant rows == Cleared(old(rows), ids - todo) && OneDefaultPerOwner(rows)
        invariant forall k :: 0 <= k < |history| ==> OneDefaultPerOwner(history[k])
        decreases todo
      {
        var i :| i in todo;
        todo := todo - {i};
        Write(i, rows[i].(isDefault := false));
        assert Defaults(rows) <= Defaults(old(rows));
      }
      assert ids - todo == ids;
    }

    method MoveOwner(oldName: string, newName: string)
      requires newName != "" && Lower(newName) == newName
      requires OneDefaultPerOwner(rows) && AtMostOne(Both(rows, oldName, newName))
      requires forall k :: 0 <= k < |history| ==> OneDefaultPerOwner(history[k])
      modifies this
      ensures forall k :: 0 <= k < |history| ==> OneDefaultPerOwner(history[k])
      ensures rows == Moved(old(rows), OwnedBy(old(rows), oldName), newName)
    {
      var ids := OwnedBy(rows, oldName);
      var todo := ids;
      while todo != {}
        invariant todo <= ids
        invariant rows == Moved(old(rows), ids - todo, newName)
        invariant forall k :: 0 <= k < |history| ==> OneDefaultPerOwner(history[k])
        decreases todo
      {
        var i :| i in todo;
        todo := todo - {i};
        Write(i, rows[i].(owner := Some(newName)));
        assert rows == Moved(old(rows), ids - todo, newName);
        PartialMoveKeepsIndex(old(rows), oldName, newName, ids - todo);
      }
      assert ids - todo == ids;
    }
  }

  /** The ids collected from the two ordered queries are exactly the losers. */
  lemma ListsGiveLosers(
    t: Table, nullsFirst: bool, oldName: string, newName: string, source: seq<Id>, dest: seq<Id>, clear: set<Id>)
    requires oldName != newName
    requires Listing(t, nullsFirst, DefaultsOf(t, oldName), source)
    requires Listing(t, nullsFirst, DefaultsOf(t, newName), dest)
    requires forall i :: i in clear <==>
      i in if dest != [] then dest[1..] + source else if source != [] then source[1..] else []
    ensures clear == Losers(t, nullsFirst, oldName, newName) && clear <= t.Keys
  {
    if dest != [] {
      ListingHead(t, nullsFirst, DefaultsOf(t, newName), dest);
      assert dest[0] in DefaultsOf(t, newName);
      forall i | i in Both(t, oldName, newName) ensures i in clear <==> i != dest[0] {
        if i in DefaultsOf(t, newName) && i != dest[0] {
          assert i in set j | j in dest[1..];
        }
        if i in DefaultsOf(t, newName) && IsEarliest(t, nullsFirst, DefaultsOf(t, newName), i) {
          EarliestIsUnique(t, nullsFirst, DefaultsOf(t, newName), i, dest[0]);
        }
      }
    } else if source != [] {
      ListingHead(t, nullsFirst, DefaultsOf(t, oldName), source);
    }
  }
}
