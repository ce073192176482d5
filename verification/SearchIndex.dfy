/** The full-text index over chat messages: triggers keep it in step, and a startup migration fills
    it unless the two row counts already agree. */
module SearchIndex {
  import opened Prelude

  type Id = nat

  datatype Message = Message(session: string, role: string, content: string)

  /** A row of the index table, which has no key of its own. */
  datatype Entry = Entry(text: string, id: Id, session: string, role: string)

  type Messages = map<Id, Message>

  const OMITTED: string := "[inline media omitted from search index]"

  predicate Contains(s: string, pat: string) {
    exists i | 0 <= i <= |s| :: pat <= s[i..]
  }

  predicate HasMedia(content: string) {
    Contains(content, ";base64,") || Contains(content, "data:image/") || Contains(content, "data:audio/")
  }

  /** The text that the triggers and the backfill index. */
  function IndexText(content: string): string {
    if HasMedia(content) then OMITTED else content
  }

  function EntryFor(id: Id, m: Message): Entry {
    Entry(IndexText(m.content), id, m.session, m.role)
  }

  /** DELETE FROM the index WHERE message_id = id. */
  function Without(index: seq<Entry>, id: Id): seq<Entry> {
    if index == [] then []
    else if index[0].id == id then Without(index[1..], id)
    else [index[0]] + Without(index[1..], id)
  }

  function Ids(index: seq<Entry>): set<Id> {
    set e | e in index :: e.id
  }

  ghost predicate NoDuplicates(index: seq<Entry>) {
    forall i, j | 0 <= i < j < |index| :: index[i].id != index[j].id
  }

  /** No message has two rows and no row is left of an absent message. */
  ghost predicate Keyed(messages: Messages, index: seq<Entry>) {
    NoDuplicates(index) && Ids(index) <= messages.Keys
  }

  /** Exactly one row for each message. */
  ghost predicate InSync(messages: Messages, index: seq<Entry>) {
    NoDuplicates(index) && Ids(index) == messages.Keys
  }

  /** Each row carries the session and the role of its message. */
  ghost predicate FieldsCurrent(messages: Messages, index: seq<Entry>) {
    forall e | e in index && e.id in messages ::
      e.session == messages[e.id].session && e.role == messages[e.id].role
  }

  /** Text without media is indexed as it is; text with media only as the marker or scrubbed. */
  ghost predicate TextsCurrent(messages: Messages, index: seq<Entry>, scrub: string -> string) {
    forall e | e in index && e.id in messages ::
      var content := messages[e.id].content;
      if HasMedia(content) then e.text == OMITTED || e.text == scrub(content) else e.text == content
  }

  /** Rows that were current in `before` are current in `after`. */
  ghost predicate NoStaler(messages: Messages, before: seq<Entry>, after: seq<Entry>, scrub: string -> string) {
    && (FieldsCurrent(messages, before) ==> FieldsCurrent(messages, after))
    && (TextsCurrent(messages, before, scrub) ==> TextsCurrent(messages, after, scrub))
  }

  // ---- the table with its triggers ----

  datatype Store = Store(messages: Messages, index: seq<Entry>)

  /** A second insert under the same primary key is refused. */
  function Insert(s: Store, id: Id, m: Message): Store {
    if id in s.messages then s
    else Store(s.messages[id := m], s.index + [EntryFor(id, m)])
  }

  function Delete(s: Store, id: Id): Store {
    if id !in s.messages then s
    else Store(s.messages - {id}, Without(s.index, id))
  }

  function Update(s: Store, id: Id, m: Message): Store {
    if id !in s.messages then s
    else Store(s.messages[id := m], Without(s.index, id) + [EntryFor(id, m)])
  }

  /** The media scrub of one message. */
  function ScrubOne(s: Store, id: Id, scrub: string -> string): Store {
    if id !in s.messages || !HasMedia(s.messages[id].content) then s
    else
      var m := s.messages[id];
      s.(index := Without(s.index, id) + [Entry(scrub(m.content), id, m.session, m.role)])
  }

  datatype Op = InsertOp(id: Id, m: Message) | DeleteOp(id: Id) | UpdateOp(id: Id, m: Message) | ScrubOp(id: Id)

  function Apply(s: Store, op: Op, scrub: string -> string): Store {
    match op
    case InsertOp(id, m) => Insert(s, id, m)
    case DeleteOp(id) => Delete(s, id)
    case UpdateOp(id, m) => Update(s, id, m)
    case ScrubOp(id) => ScrubOne(s, id, scrub)
  }

  function Run(s: Store, ops: seq<Op>, scrub: string -> string): Store
    decreases |ops|
  {
    if ops == [] then s else Run(Apply(s, ops[0], scrub), ops[1..], scrub)
  }

  lemma {:induction false} WithoutRows(index: seq<Entry>, id: Id)
    ensures forall e :: e in Without(index, id) <==> e in index && e.id != id
    ensures NoDuplicates(index) ==> NoDuplicates(Without(index, id))
  {
    if index != [] {
      WithoutRows(index[1..], id);
    }
  }

  lemma AppendRow(index: seq<Entry>, e: Entry)
    requires NoDuplicates(index) && e.id !in Ids(index)
    ensures NoDuplicates(index + [e]) && Ids(index + [e]) == Ids(index) + {e.id}
  {
    forall i | 0 <= i < |index| ensures index[i].id != e.id {
      assert index[i] in index;
    }
    assert forall x :: x in index + [e] <==> x in index || x == e;
  }

  /** Deleting a message's rows and adding one for it. */
  lemma Reindexed(messages: Messages, messages': Messages, index: seq<Entry>, e: Entry)
    requires InSync(messages, index)
    requires messages'.Keys == messages.Keys + {e.id}
    ensures InSync(messages', Without(index, e.id) + [e])
  {
    WithoutRows(index, e.id);
    var rest := Without(index, e.id);
    assert Ids(rest) == messages.Keys - {e.id} by {
      forall id | id in messages && id != e.id ensures id in Ids(rest) {
        var x :| x in index && x.id == id;
        assert x in rest;
      }
    }
    AppendRow(rest, e);
  }

  lemma {:induction false} WithoutAbsent(index: seq<Entry>, id: Id)
    requires id !in Ids(index)
    ensures Without(index, id) == index
  {
    if index != [] {
      assert index[0] in index;
      assert forall e :: e in index[1..] ==> e in index;
      WithoutAbsent(index[1..], id);
    }
  }

  lemma StepKeepsInSync(s: Store, op: Op, scrub: string -> string)
    requires InSync(s.messages, s.index)
    ensures var s' := Apply(s, op, scrub); InSync(s'.messages, s'.index)
  {
    match op
    case InsertOp(id, m) =>
      if id !in s.messages {
        WithoutAbsent(s.index, id);
        Reindexed(s.messages, s.messages[id := m], s.index, EntryFor(id, m));
      }
    case DeleteOp(id) =>
      WithoutRows(s.index, id);
      forall k | k in s.messages && k != id ensures k in Ids(Without(s.index, id)) {
        var x :| x in s.index && x.id == k;
        assert x in Without(s.index, id);
      }
    case UpdateOp(id, m) =>
      if id in s.messages {
        Reindexed(s.messages, s.messages[id := m], s.index, EntryFor(id, m));
      }
    case ScrubOp(id) =>
      if id in s.messages {
        var m := s.messages[id];
        Reindexed(s.messages, s.messages, s.index, Entry(scrub(m.content), id, m.session, m.role));
      }
  }

  lemma StepKeepsFieldsCurrent(s: Store, op: Op, scrub: string -> string)
    requires InSync(s.messages, s.index) && FieldsCurrent(s.messages, s.index)
    ensures var s' := Apply(s, op, scrub); FieldsCurrent(s'.messages, s'.index)
  {
    WithoutRows(s.index, op.id);
  }

  lemma StepKeepsTextsCurrent(s: Store, op: Op, scrub: string -> string)
    requires InSync(s.messages, s.index) && TextsCurrent(s.messages, s.index, scrub)
    ensures var s' := Apply(s, op, scrub); TextsCurrent(s'.messages, s'.index, scrub)
  {
    WithoutRows(s.index, op.id);
  }

  /** Rows that are current, in their fields or in their text, are never made stale. */
  lemma StepKeepsRowsCurrent(s: Store, op: Op, scrub: string -> string)
    requires InSync(s.messages, s.index)
    ensures var s' := Apply(s, op, scrub);
            && (FieldsCurrent(s.messages, s.index) ==> FieldsCurrent(s'.messages, s'.index))
            && (TextsCurrent(s.messages, s.index, scrub) ==> TextsCurrent(s'.messages, s'.index, scrub))
  {
    if FieldsCurrent(s.messages, s.index) {
      StepKeepsFieldsCurrent(s, op, scrub);
    }
    if TextsCurrent(s.messages, s.index, scrub) {
      StepKeepsTextsCurrent(s, op, scrub);
    }
  }

  /** From an index in step, every later state is in step, whatever is inserted, deleted, updated
      or scrubbed; and if its rows had the right session and role, or current texts, so they do
      in every later state. */
  lemma {:induction false} RunKeepsInSync(s: Store, ops: seq<Op>, scrub: string -> string)
    requires InSync(s.messages, s.index)
    ensures var s' := Run(s, ops, scrub);
            && InSync(s'.messages, s'.index)
            && (FieldsCurrent(s.messages, s.index) ==> FieldsCurrent(s'.messages, s'.index))
            && (TextsCurrent(s.messages, s.index, scrub) ==> TextsCurrent(s'.messages, s'.index, scrub))
    decreases |ops|
  {
    if ops != [] {
      StepKeepsInSync(s, ops[0], scrub);
      StepKeepsRowsCurrent(s, ops[0], scrub);
      RunKeepsInSync(Apply(s, ops[0], scrub), ops[1..], scrub);
    }
  }

  // ---- what a search sees ----

  /** The message `id` has exactly one row, with what there is to find of it. */
  ghost predicate Found(index: seq<Entry>, id: Id, m: Message) {
    && (exists e :: e in index && e.id == id)
    && forall e | e in index && e.id == id ::
         && e.session == m.session && e.role == m.role
         && (if HasMedia(m.content) then e.text == OMITTED else e.text == m.content)
  }

  /** After a write the message is stored and found as it was written; after a deletion neither the
      message nor a row of it is left. */
  lemma WritesAreFound(s: Store, id: Id, m: Message)
    requires InSync(s.messages, s.index)
    ensures id !in s.messages ==>
      Insert(s, id, m).messages == s.messages[id := m] && Found(Insert(s, id, m).index, id, m)
    ensures id in s.messages ==>
      Update(s, id, m).messages == s.messages[id := m] && Found(Update(s, id, m).index, id, m)
    ensures Delete(s, id).messages == s.messages - {id} && id !in Ids(Delete(s, id).index)
  {
    WithoutRows(s.index, id);
    if id in s.messages {
      var e := EntryFor(id, m);
      assert e in Update(s, id, m).index;
    } else {
      assert EntryFor(id, m) in Insert(s, id, m).index;
    }
  }

  /** No write touches another message or its rows. */
  lemma OtherRowsStay(s: Store, op: Op, scrub: string -> string, e: Entry)
    requires e.id != op.id
    ensures e in Apply(s, op, scrub).index <==> e in s.index
    ensures e.id in Apply(s, op, scrub).messages <==> e.id in s.messages
    ensures e.id in s.messages ==> Apply(s, op, scrub).messages[e.id] == s.messages[e.id]
  {
    WithoutRows(s.index, op.id);
  }

  lemma NotContained(s: string, pat: string, c: char)
    requires c in pat && c !in s
    ensures !Contains(s, pat)
  {
    var k :| 0 <= k < |pat| && pat[k] == c;
    forall i | 0 <= i <= |s| ensures !(pat <= s[i..]) {
      assert k < |s[i..]| ==> s[i..][k] == s[i + k] != c;
    }
  }

  lemma MarkerCharacters()
    ensures ':' !in OMITTED && ';' !in OMITTED
  {
  }

  lemma MarkerHasNoMedia()
    ensures !Contains(OMITTED, ";base64,") && !Contains(OMITTED, "data:image/") && !Contains(OMITTED, "data:audio/")
  {
    MarkerCharacters();
    assert "data:image/"[4] == "data:audio/"[4] == ':' && ";base64,"[0] == ';';
    NotContained(OMITTED, ";base64,", ';');
    NotContained(OMITTED, "data:image/", ':');
    NotContained(OMITTED, "data:audio/", ':');
  }

  /** The row of a message holds no inline media. */
  predicate NoMedia(e: Entry) {
    !Contains(e.text, ";base64,") && !Contains(e.text, "data:image/") && !Contains(e.text, "data:audio/")
  }

  /** Inline media never gets into the index, whatever is inserted, updated or scrubbed. */
  lemma StepKeepsMediaOut(s: Store, op: Op, scrub: string -> string)
    requires forall e | e in s.index :: NoMedia(e)
    requires op.ScrubOp? && op.id in s.messages ==>
      var m := s.messages[op.id]; NoMedia(Entry(scrub(m.content), op.id, m.session, m.role))
    ensures forall e | e in Apply(s, op, scrub).index :: NoMedia(e)
  {
    MarkerHasNoMedia();
    WithoutRows(s.index, op.id);
    if op.InsertOp? || op.UpdateOp? {
      assert NoMedia(EntryFor(op.id, op.m));
    }
  }

  // ---- the migration ----

  lemma LastIdIsNew(index: seq<Entry>)
    requires NoDuplicates(index) && index != []
    ensures var rest, last := index[..|index| - 1], index[|index| - 1];
            NoDuplicates(rest) && last.id !in Ids(rest) && index == rest + [last]
  {
    var rest, last := index[..|index| - 1], index[|index| - 1];
    forall e | e in rest ensures e.id != last.id {
      var i :| 0 <= i < |rest| && rest[i] == e;
      assert index[i] == e;
    }
  }

  lemma IdsOfRest(index: seq<Entry>)
    requires index != []
    ensures Ids(index) == Ids(index[..|index| - 1]) + {index[|index| - 1].id}
  {
    assert index == index[..|index| - 1] + [index[|index| - 1]];
    assert forall e :: e in index <==> e in index[..|index| - 1] || e == index[|index| - 1];
  }

  lemma NoDuplicatesOfRest(index: seq<Entry>)
    requires index != []
    ensures NoDuplicates(index)
        <==> NoDuplicates(index[..|index| - 1]) && index[|index| - 1].id !in Ids(index[..|index| - 1])
  {
    var rest, last := index[..|index| - 1], index[|index| - 1];
    assert index == rest + [last];
    if NoDuplicates(index) {
      LastIdIsNew(index);
    } else if NoDuplicates(rest) && last.id !in Ids(rest) {
      AppendRow(rest, last);
    }
  }

  /** There are no more ids than rows, and as many just when no id is repeated. */
  lemma {:induction false} IdsAndRows(index: seq<Entry>)
    ensures |Ids(index)| <= |index|
    ensures |Ids(index)| == |index| <==> NoDuplicates(index)
    decreases |index|
  {
    if index != [] {
      var rest := index[..|index| - 1];
      IdsAndRows(rest);
      IdsOfRest(index);
      NoDuplicatesOfRest(index);
    }
  }

  lemma {:induction false} SubsetOfSameSize(a: set<Id>, b: set<Id>)
    requires a <= b && |a| == |b|
    ensures a == b
  {
    if a != {} {
      var x :| x in a;
      SubsetOfSameSize(a - {x}, b - {x});
    }
  }

  /** What the count test can be trusted for: with equal counts no message is missing exactly when
      the index holds no duplicate and no stray row; and then it is in step. */
  lemma EqualCountsMeanComplete(messages: Messages, index: seq<Entry>)
    requires |index| == |messages|
    ensures messages.Keys <= Ids(index) <==> Keyed(messages, index)
    ensures Keyed(messages, index) <==> InSync(messages, index)
  {
    IdsAndRows(index);
    if messages.Keys <= Ids(index) {
      SubsetSize(messages.Keys, Ids(index));
      SubsetOfSameSize(messages.Keys, Ids(index));
    } else if Keyed(messages, index) {
      SubsetOfSameSize(Ids(index), messages.Keys);
    }
  }

  /** Every table with equal counts that holds a duplicate or a stray row lacks some message. */
  lemma EqualCountsCanHideAMissingMessage(messages: Messages, index: seq<Entry>) returns (missing: Id)
    requires |index| == |messages| && !Keyed(messages, index)
    ensures missing in messages && missing !in Ids(index)
  {
    EqualCountsMeanComplete(messages, index);
    missing :| missing in messages && missing !in Ids(index);
  }

  /** One row for each of the messages `ids`, as the insert trigger would write it. */
  ghost predicate TriggerRows(messages: Messages, rows: seq<Entry>, ids: set<Id>) {
    && Ids(rows) == ids && |rows| == |ids|
    && forall e | e in rows :: e.id in messages && e == EntryFor(e.id, messages[e.id])
  }

  /** `index` is `start` followed by one trigger row for each of the messages `done`. */
  ghost predicate Backfilled(messages: Messages, start: seq<Entry>, index: seq<Entry>, done: set<Id>) {
    && start <= index
    && (NoDuplicates(start) ==> NoDuplicates(index))
    && TriggerRows(messages, index[|start|..], done)
  }

  lemma IdsConcat(a: seq<Entry>, b: seq<Entry>)
    ensures Ids(a + b) == Ids(a) + Ids(b)
  {
    assert forall e :: e in a + b <==> e in a || e in b;
  }

  lemma TriggerRowsOne(messages: Messages, rows: seq<Entry>, ids: set<Id>, id: Id)
    requires TriggerRows(messages, rows, ids) && id in messages && id !in ids
    ensures TriggerRows(messages, rows + [EntryFor(id, messages[id])], ids + {id})
  {
    var e := EntryFor(id, messages[id]);
    IdsConcat(rows, [e]);
    assert Ids([e]) == {id};
  }

  lemma BackfillOne(messages: Messages, start: seq<Entry>, index: seq<Entry>, done: set<Id>, id: Id)
    requires Backfilled(messages, start, index, done) && id in messages && id !in Ids(start) + done
    ensures Backfilled(messages, start, index + [EntryFor(id, messages[id])], done + {id})
  {
    var e := EntryFor(id, messages[id]);
    var rows := index[|start|..];
    assert index == start + rows;
    IdsConcat(start, rows);
    if NoDuplicates(start) {
      AppendRow(index, e);
    }
    TriggerRowsOne(messages, rows, done, id);
    DropThenAppend(index, |start|, e);
  }

  lemma DropThenAppend<T>(xs: seq<T>, n: nat, x: T)
    requires n <= |xs|
    ensures (xs + [x])[n..] == xs[n..] + [x]
  {
  }

  lemma BackfilledRowsAreCurrent(
    messages: Messages, start: seq<Entry>, index: seq<Entry>, done: set<Id>, scrub: string -> string)
    requires Backfilled(messages, start, index, done)
    ensures NoStaler(messages, start, index, scrub)
  {
    assert index == start + index[|start|..];
  }

  lemma NoStalerTransitive(
    messages: Messages, a: seq<Entry>, b: seq<Entry>, c: seq<Entry>, scrub: string -> string)
    requires NoStaler(messages, a, b, scrub) && NoStaler(messages, b, c, scrub)
    ensures NoStaler(messages, a, c, scrub)
  {
  }

  lemma TakeOne(all: set<Id>, todo: set<Id>, id: Id)
    requires id in todo && todo <= all
    ensures all - (todo - {id}) == (all - todo) + {id}
  {
  }

  /** One more of the messages `missing` from `start`, of which `todo` are still to do. */
  lemma FillOne(messages: Messages, start: seq<Entry>, index: seq<Entry>, missing: set<Id>, todo: set<Id>, id: Id)
    requires Backfilled(messages, start, index, missing - todo)
    requires id in todo && todo <= missing && missing <= messages.Keys && missing !! Ids(start)
    ensures Backfilled(messages, start, index + [EntryFor(id, messages[id])], missing - (todo - {id}))
  {
    BackfillOne(messages, start, index, missing - todo, id);
    TakeOne(missing, todo, id);
  }

  lemma NothingFilled(messages: Messages, start: seq<Entry>)
    ensures Backfilled(messages, start, start, {})
  {
    assert start[|start|..] == [];
  }

  lemma IdsSplit(start: seq<Entry>, index: seq<Entry>)
    requires start <= index
    ensures Ids(index) == Ids(start) + Ids(index[|start|..])
  {
    assert index == start + index[|start|..];
    IdsConcat(start, index[|start|..]);
  }

  lemma BackfilledIds(messages: Messages, start: seq<Entry>, index: seq<Entry>, done: set<Id>)
    requires Backfilled(messages, start, index, done)
    ensures Ids(index) == Ids(start) + done
    ensures NoDuplicates(start) ==> NoDuplicates(index)
  {
    IdsSplit(start, index);
  }

  lemma AllFilled(messages: Messages, start: seq<Entry>, index: seq<Entry>)
    requires Ids(index) == Ids(start) + (messages.Keys - Ids(start))
    requires NoDuplicates(start) ==> NoDuplicates(index)
    ensures Ids(index) == Ids(start) + messages.Keys
    ensures Keyed(messages, start) ==> InSync(messages, index)
  {
  }

  /** The backfill: the rows that were there stay, and each missing message, and nothing else, gets
      one row. */
  method Backfill(messages: Messages, start: seq<Entry>) returns (index: seq<Entry>)
    ensures Backfilled(messages, start, index, messages.Keys - Ids(start))
    ensures Ids(index) == Ids(start) + messages.Keys
    ensures Keyed(messages, start) ==> InSync(messages, index)
  {
    index := start;
    var missing := messages.Keys - Ids(start);
    var todo := missing;
    NothingFilled(messages, start);
    assert missing - todo == {};
    while todo != {}
      invariant todo <= missing && Backfilled(messages, start, index, missing - todo)
      decreases todo
    {
      var id :| id in todo;
      FillOne(messages, start, index, missing, todo, id);
      todo := todo - {id};
      index := index + [EntryFor(id, messages[id])];
    }
    assert missing - todo == missing;
    BackfilledIds(messages, start, index, missing);
    AllFilled(messages, start, index);
  }

  lemma ScrubOneKeeps(messages: Messages, start: seq<Entry>, index: seq<Entry>, id: Id, scrub: string -> string)
    requires InSync(messages, index) && NoStaler(messages, start, index, scrub)
    ensures var index' := ScrubOne(Store(messages, index), id, scrub).index;
            InSync(messages, index') && NoStaler(messages, start, index', scrub)
  {
    StepKeepsInSync(Store(messages, index), ScrubOp(id), scrub);
    StepKeepsRowsCurrent(Store(messages, index), ScrubOp(id), scrub);
  }

  function MediaIds(messages: Messages): set<Id> {
    set id | id in messages && HasMedia(messages[id].content)
  }

  /** The scrub of one message leaves it with a row, be it its first. */
  lemma ScrubOneIds(messages: Messages, index: seq<Entry>, id: Id, scrub: string -> string)
    requires id in MediaIds(messages)
    ensures Ids(ScrubOne(Store(messages, index), id, scrub).index) == Ids(index) + {id}
  {
    var m := messages[id];
    WithoutRows(index, id);
    IdsConcat(Without(index, id), [Entry(scrub(m.content), id, m.session, m.role)]);
    forall k | k in Ids(index) && k != id ensures k in Ids(Without(index, id)) {
      var e :| e in index && e.id == k;
      assert e in Without(index, id);
    }
  }

  /** The rows of the messages `done` hold the scrubbed text and the fields of their message; all other
      rows are those of `start`. */
  ghost predicate Scrubbed(
    messages: Messages, start: seq<Entry>, index: seq<Entry>, done: set<Id>, scrub: string -> string)
  {
    forall e :: e in index <==>
      if e.id in done && e.id in messages
      then e == Entry(scrub(messages[e.id].content), e.id, messages[e.id].session, messages[e.id].role)
      else e in start
  }

  lemma ScrubbedOneMore(
    messages: Messages, start: seq<Entry>, index: seq<Entry>, done: set<Id>, id: Id, scrub: string -> string)
    requires id in MediaIds(messages) && Scrubbed(messages, start, index, done, scrub)
    ensures Scrubbed(messages, start, ScrubOne(Store(messages, index), id, scrub).index, done + {id}, scrub)
  {
    WithoutRows(index, id);
  }

  /** The media scrub: one pass over the messages that hold media, which all have a row after it. */
  method ScrubMedia(messages: Messages, start: seq<Entry>, scrub: string -> string) returns (index: seq<Entry>)
    ensures Ids(index) == Ids(start) + MediaIds(messages)
    ensures Scrubbed(messages, start, index, MediaIds(messages), scrub)
    ensures InSync(messages, start) ==> InSync(messages, index) && NoStaler(messages, start, index, scrub)
  {
    index := start;
    var todo := MediaIds(messages);
    assert MediaIds(messages) - todo == {};
    while todo != {}
      invariant todo <= MediaIds(messages)
      invariant Ids(index) == Ids(start) + (MediaIds(messages) - todo)
      invariant Scrubbed(messages, start, index, MediaIds(messages) - todo, scrub)
      invariant InSync(messages, start) ==> InSync(messages, index) && NoStaler(messages, start, index, scrub)
      decreases todo
    {
      var id :| id in todo;
      TakeOne(MediaIds(messages), todo, id);
      todo := todo - {id};
      assert MediaIds(messages) - todo - {id} == MediaIds(messages) - (todo + {id});
      if InSync(messages, start) {
        ScrubOneKeeps(messages, start, index, id, scrub);
      }
      ScrubOneIds(messages, index, id, scrub);
      ScrubbedOneMore(messages, start, index, MediaIds(messages) - todo - {id}, id, scrub);
      index := ScrubOne(Store(messages, index), id, scrub).index;
    }
  }

  class ChatStore {
    var messages: Messages
    var index: seq<Entry>

    ghost function View(): Store
      reads this
    {
      Store(messages, index)
    }

    /** The migration: every message gets a row if the counts differ, and otherwise those that hold
        media; from an index without duplicates and strays, however incomplete, it makes one in step
        with the messages. */
    method Migrate(scrub: string -> string)
      modifies this`index
      ensures Ids(index) ==
        Ids(old(index)) + if |messages| != |old(index)| then messages.Keys else MediaIds(messages)
      ensures old(Keyed(messages, index)) ==>
        InSync(messages, index) && NoStaler(messages, old(index), index, scrub)
    {
      ghost var start := index;
      if |messages| != |index| {
        index := Backfill(messages, index);
        BackfilledRowsAreCurrent(messages, start, index, messages.Keys - Ids(start), scrub);
      } else {
        EqualCountsMeanComplete(messages, index);
      }
      ghost var filled := index;
      index := ScrubMedia(messages, index, scrub);
      if Keyed(messages, start) {
        NoStalerTransitive(messages, start, filled, index, scrub);
      }
    }

    method InsertMessage(id: Id, m: Message)
      modifies this
      ensures View() == Insert(old(View()), id, m)
    {
      if id !in messages {
        messages := messages[id := m];
        index := index + [EntryFor(id, m)];
      }
    }

    method DeleteMessage(id: Id)
      modifies this
      ensures View() == Delete(old(View()), id)
    {
      if id in messages {
        messages := messages - {id};
        DeleteRows(id);
      }
    }

    method UpdateMessage(id: Id, m: Message)
      modifies this
      ensures View() == Update(old(View()), id, m)
    {
      if id in messages {
        messages := messages[id := m];
        DeleteRows(id);
        index := index + [EntryFor(id, m)];
      }
    }

    method DeleteRows(id: Id)
      modifies this`index
      ensures index == Without(old(index), id)
    {
      var kept: seq<Entry> := [];
      var n := |index|;
      while n > 0
        invariant 0 <= n <= |index| && index == old(index)
        invariant kept == Without(index[n..], id)
      {
        n := n - 1;
        assert index[n..] == [index[n]] + index[n + 1..];
        if index[n].id != id {
          kept := [index[n]] + kept;
        }
      }
      assert index[0..] == index;
      index := kept;
    }
  }
}
