/** JSON stores: a write replaces the file in one step, and a read-modify-write holds a lock that
    is shared by all threads and processes. */
module AtomicStore {
  import opened Prelude

  type Name = string

  /** A file's content and whether it has reached the disk. */
  datatype File = File(content: string, synced: bool)

  type Files = map<Name, File>

  /** What a reader sees; a missing store reads as `None`. */
  function ContentOf(files: Files, name: Name): Option<string> {
    if name in files then Some(files[name].content) else None
  }

  // ---- one atomic write ----

  /** Which steps of a write fail; `write` is how many characters the disk still takes. */
  datatype Faults = Faults(open: bool, write: Option<nat>, sync: bool, replace: bool, unlink: bool)

  predicate WriteFails(faults: Faults, text: string) {
    faults.write.Some? && faults.write.value < |text|
  }

  class Disk {
    var files: Files
    /** The directory after each system call. */
    ghost var history: seq<Files>

    method Put(name: Name, file: File)
      modifies this
      ensures files == old(files)[name := file] && history == old(history) + [files]
    {
      files := files[name := file];
      history := history + [files];
    }

    method Replace(source: Name, target: Name)
      requires source in files && source != target
      modifies this
      ensures files == (old(files) - {source})[target := old(files)[source]] && history == old(history) + [files]
    {
      files := (files - {source})[target := files[source]];
      history := history + [files];
    }

    /** `os.unlink`: an error, be it that there is no such file, is swallowed. */
    method Unlink(name: Name, fails: bool)
      modifies this
      ensures files == if fails then old(files) else old(files) - {name}
      ensures history == old(history) + [files]
    {
      if !fails {
        files := files - {name};
      }
      history := history + [files];
    }

    /** Writes `text` to `target` through the scratch file `tmp`, with these faults.  After every system
        call the target is as it was or is the whole new text on disk, and no other file is touched; it
        is written exactly if nothing but the cleanup fails. */
    method AtomicWrite(target: Name, tmp: Name, text: string, faults: Faults) returns (ok: bool)
      requires tmp != target && history == []
      modifies this
      ensures forall k | 0 <= k < |history| ::
                history[k] - {tmp} == old(files) - {tmp}
                || history[k] - {tmp} == (old(files) - {tmp})[target := File(text, true)]
      ensures files - {tmp} == if ok then (old(files) - {tmp})[target := File(text, true)] else old(files) - {tmp}
      ensures ok <==> !faults.open && !WriteFails(faults, text) && !faults.sync && !faults.replace
      ensures ok || !faults.unlink ==> tmp !in files
    {
      ok := false;
      var written := WriteScratch(target, tmp, text, faults);
      if written && !faults.replace {
        Replace(tmp, target);
        ok := true;
      }
      Unlink(tmp, faults.unlink);
    }

    /** The text is written in chunks of any length, then synced. */
    method WriteScratch(target: Name, tmp: Name, text: string, faults: Faults) returns (ok: bool)
      requires tmp != target && history == []
      modifies this
      ensures forall k | 0 <= k < |history| :: history[k] - {tmp} == old(files) - {tmp}
      ensures files - {tmp} == old(files) - {tmp}
      ensures ok <==> !faults.open && !WriteFails(faults, text) && !faults.sync
      ensures ok ==> tmp in files && files[tmp] == File(text, true)
    {
      if faults.open {
        return false;
      }
      Put(tmp, File("", false));
      var n := 0;
      while n < |text|
        invariant 0 <= n <= |text| && (faults.write.Some? ==> n <= faults.write.value)
        invariant forall k | 0 <= k < |history| :: history[k] - {tmp} == old(files) - {tmp}
        invariant files - {tmp} == old(files) - {tmp} && tmp in files && files[tmp] == File(text[..n], false)
      {
        var next: int :| n < next <= |text|;
        if faults.write.Some? && faults.write.value < next {
          return false;
        }
        n := next;
        Put(tmp, File(text[..n], false));
      }
      assert text[..|text|] == text;
      if faults.sync {
        return false;
      }
      Put(tmp, File(text, true));
      ok := true;
    }
  }

  // ---- transactions of threads and processes ----

  /** A read-modify-write of the store. */
  type Update = Option<string> -> string

  /** Where a transaction is: outside, holding its process's thread lock, or holding the file lock
      as well while it reads, fills its scratch file, syncs it, replaces the store and cleans up. */
  datatype Pc =
    | Outside
    | ThreadLocked
    | FileLocked
    | Read(seen: Option<string>)
    | Writing(seen: Option<string>, n: nat)
    | Synced(seen: Option<string>)
    | Replaced
    | Failing
    | Cleaned(applied: bool)
    | Finished(applied: bool)
    | Dead

  datatype Tx = Tx(process: nat, update: Update, tmp: Name, pc: Pc)

  /** `order` lists the transactions that have replaced the store, in that order; `previous` is what
      the last replacement put out of place. */
  datatype State = State(files: Files, txs: seq<Tx>, order: seq<nat>, previous: Option<File>)

  predicate HoldsThreadLock(pc: Pc) {
    !pc.Outside? && !pc.Finished? && !pc.Dead?
  }

  predicate HoldsFileLock(pc: Pc) {
    HoldsThreadLock(pc) && !pc.ThreadLocked?
  }

  datatype Event =
    | LockThread(t: nat)
    | LockFile(t: nat)
    | ReadStore(t: nat)
    | OpenScratch(t: nat)
    | WriteChunk(t: nat, n: nat)
    | Sync(t: nat)
    | ReplaceStore(t: nat)
    | Fail(t: nat)
    | Cleanup(t: nat, unlinked: bool)
    | Unlock(t: nat)
    | Crash(process: nat)

  function At(s: State, t: nat, pc: Pc): State
    requires t < |s.txs|
  {
    s.(txs := s.txs[t := s.txs[t].(pc := pc)])
  }

  function Killed(txs: seq<Tx>, process: nat): seq<Tx> {
    seq(|txs|, i requires 0 <= i < |txs| =>
      if txs[i].process == process && !txs[i].pc.Finished? then txs[i].(pc := Dead) else txs[i])
  }

  /** One step; `None` when it cannot be taken now. */
  function Next(store: Name, s: State, e: Event): Option<State> {
    if e.Crash? then Some(s.(txs := Killed(s.txs, e.process)))
    else if e.t >= |s.txs| then None
    else
      var tx := s.txs[e.t];
      match e
      case LockThread(t) =>
        if || !tx.pc.Outside?
           || (exists u | 0 <= u < |s.txs| :: s.txs[u].process == tx.process && HoldsThreadLock(s.txs[u].pc))
        then None else Some(At(s, t, ThreadLocked))
      case LockFile(t) =>
        if !tx.pc.ThreadLocked? || (exists u | 0 <= u < |s.txs| :: HoldsFileLock(s.txs[u].pc))
        then None else Some(At(s, t, FileLocked))
      case ReadStore(t) =>
        if !tx.pc.FileLocked? then None else Some(At(s, t, Read(ContentOf(s.files, store))))
      case OpenScratch(t) =>
        if !tx.pc.Read? then None
        else Some(At(s, t, Writing(tx.pc.seen, 0)).(files := s.files[tx.tmp := File("", false)]))
      case WriteChunk(t, n) =>
        if !tx.pc.Writing? || n < tx.pc.n || n > |tx.update(tx.pc.seen)| then None
        else
          var part := File(tx.update(tx.pc.seen)[..n], false);
          Some(At(s, t, Writing(tx.pc.seen, n)).(files := s.files[tx.tmp := part]))
      case Sync(t) =>
        if !tx.pc.Writing? || tx.pc.n != |tx.update(tx.pc.seen)| || tx.tmp !in s.files then None
        else Some(At(s, t, Synced(tx.pc.seen)).(files := s.files[tx.tmp := s.files[tx.tmp].(synced := true)]))
      case ReplaceStore(t) =>
        if !tx.pc.Synced? || tx.tmp !in s.files then None
        else
          var s' := At(s, t, Replaced);
          Some(State((s.files - {tx.tmp})[store := s.files[tx.tmp]], s'.txs, s.order + [t],
                     if store in s.files then Some(s.files[store]) else None))
      case Fail(t) =>
        if tx.pc.FileLocked? || tx.pc.Read? || tx.pc.Writing? || tx.pc.Synced? then Some(At(s, t, Failing)) else None
      case Cleanup(t, unlinked) =>
        if !tx.pc.Replaced? && !tx.pc.Failing? then None
        else Some(At(s, t, Cleaned(tx.pc.Replaced?)).(files := if unlinked then s.files - {tx.tmp} else s.files))
      case Unlock(t) => if !tx.pc.Cleaned? then None else Some(At(s, t, Finished(tx.pc.applied)))
  }

  function Run(store: Name, s: State, events: seq<Event>): Option<State>
    decreases |events|
  {
    if events == [] then Some(s)
    else
      var before := Run(store, s, events[..|events| - 1]);
      if before.None? then None else Next(store, before.value, events[|events| - 1])
  }

  /** The store after applying the updates of the listed transactions one after the other. */
  function Serial(init: Option<string>, txs: seq<Tx>, order: seq<nat>): Option<string>
    decreases |order|
  {
    if order == [] then init
    else
      var t, before := order[|order| - 1], Serial(init, txs, order[..|order| - 1]);
      if t < |txs| then Some(txs[t].update(before)) else before
  }

  /** Scratch names are random: distinct, and none is the store. */
  ghost predicate ScratchNames(store: Name, txs: seq<Tx>) {
    && (forall t | 0 <= t < |txs| :: txs[t].tmp != store)
    && (forall t, u | 0 <= t < u < |txs| :: txs[t].tmp != txs[u].tmp)
  }

  ghost predicate Start(store: Name, s: State) {
    && ScratchNames(store, s.txs)
    && (forall t | 0 <= t < |s.txs| :: s.txs[t].pc.Outside?)
    && (store in s.files ==> s.files[store].synced)
    && s.order == [] && s.previous == None
  }

  /** What the position of one transaction says about its scratch file and what it has read. */
  ghost predicate TxOk(store: Name, files: Files, tx: Tx) {
    match tx.pc
    case Read(seen) => seen == ContentOf(files, store)
    case Writing(seen, n) =>
      && seen == ContentOf(files, store) && n <= |tx.update(seen)|
      && tx.tmp in files && files[tx.tmp] == File(tx.update(seen)[..n], false)
    case Synced(seen) =>
      && seen == ContentOf(files, store)
      && tx.tmp in files && files[tx.tmp] == File(tx.update(seen), true)
    case _ => true
  }

  ghost predicate Exclusive(txs: seq<Tx>) {
    forall t, u | 0 <= t < u < |txs| :: !(HoldsFileLock(txs[t].pc) && HoldsFileLock(txs[u].pc))
  }

  predicate Applied(pc: Pc) {
    pc.Replaced? || pc == Cleaned(true) || pc == Finished(true)
  }

  /** `order` lists each transaction that is past its replacement once, and no other, except that
      one killed after its replacement is listed as well. */
  ghost predicate OrderOk(s: State) {
    && (forall t | t in s.order :: t < |s.txs| && (Applied(s.txs[t].pc) || s.txs[t].pc.Dead?))
    && (forall t | 0 <= t < |s.txs| && Applied(s.txs[t].pc) :: t in s.order)
    && (forall i, j | 0 <= i < j < |s.order| :: s.order[i] != s.order[j])
  }

  ghost predicate Inv(store: Name, init: Option<string>, s: State) {
    && ScratchNames(store, s.txs)
    && Exclusive(s.txs)
    && OrderOk(s)
    && (forall t | 0 <= t < |s.txs| :: TxOk(store, s.files, s.txs[t]))
    && ContentOf(s.files, store) == Serial(init, s.txs, s.order)
    && (store in s.files ==> s.files[store].synced)
    && (s.order != [] ==>
          && (s.previous.Some? ==> s.previous.value.synced)
          && (if s.previous.Some? then Some(s.previous.value.content) else None)
             == Serial(init, s.txs, s.order[..|s.order| - 1]))
  }

  /** Updates never change, only positions do. */
  ghost predicate SameUpdates(txs: seq<Tx>, txs': seq<Tx>) {
    |txs| == |txs'| && forall t | 0 <= t < |txs| ::
      txs'[t].update == txs[t].update && txs'[t].tmp == txs[t].tmp && txs'[t].process == txs[t].process
  }

  lemma {:induction false} SerialSame(init: Option<string>, txs: seq<Tx>, txs': seq<Tx>, order: seq<nat>)
    requires SameUpdates(txs, txs')
    ensures Serial(init, txs', order) == Serial(init, txs, order)
    decreases |order|
  {
    if order != [] {
      SerialSame(init, txs, txs', order[..|order| - 1]);
    }
  }

  lemma StepKeepsUpdates(store: Name, s: State, e: Event)
    requires Next(store, s, e).Some?
    ensures SameUpdates(s.txs, Next(store, s, e).value.txs)
  {
  }

  lemma StepKeepsExclusive(store: Name, s: State, e: Event)
    requires Next(store, s, e).Some? && Exclusive(s.txs)
    ensures Exclusive(Next(store, s, e).value.txs)
  {
  }

  /** A transaction counts as applied from its replacement on, and until it is killed. */
  lemma StepApplies(store: Name, s: State, e: Event, t: nat)
    requires Next(store, s, e).Some? && t < |s.txs|
    ensures var pc, pc' := s.txs[t].pc, Next(store, s, e).value.txs[t].pc;
            && (Applied(pc') <==> (Applied(pc) && !pc'.Dead?) || (e.ReplaceStore? && e.t == t))
            && (pc.Dead? || (Applied(pc) && !Applied(pc')) ==> pc'.Dead?)
  {
  }

  lemma StepKeepsOrder(store: Name, s: State, e: Event)
    requires Next(store, s, e).Some? && OrderOk(s)
    ensures OrderOk(Next(store, s, e).value)
  {
    var s' := Next(store, s, e).value;
    StepKeepsUpdates(store, s, e);
    assert s'.order == if e.ReplaceStore? then s.order + [e.t] else s.order;
    forall t | t in s'.order ensures t < |s'.txs| && (Applied(s'.txs[t].pc) || s'.txs[t].pc.Dead?) {
      assert t in s.order || (e.ReplaceStore? && t == e.t);
      StepApplies(store, s, e, t);
    }
    forall t | 0 <= t < |s'.txs| && Applied(s'.txs[t].pc) ensures t in s'.order {
      StepApplies(store, s, e, t);
    }
    if e.ReplaceStore? {
      assert e.t !in s.order;
    }
  }

  /** A transaction does not notice what happens to other scratch files; and while it is between its
      read and its replacement nobody else can replace the store. */
  lemma StepKeepsTx(store: Name, s: State, e: Event, u: nat)
    requires Next(store, s, e).Some? && u < |s.txs|
    requires ScratchNames(store, s.txs) && Exclusive(s.txs) && TxOk(store, s.files, s.txs[u])
    ensures TxOk(store, Next(store, s, e).value.files, Next(store, s, e).value.txs[u])
  {
    if !e.Crash? && u != e.t {
      assert s.txs[u].tmp != s.txs[e.t].tmp;
      assert Next(store, s, e).value.txs[u] == s.txs[u];
      assert e.ReplaceStore? ==> !HoldsFileLock(s.txs[u].pc);
    }
  }

  lemma StepKeepsSerial(store: Name, init: Option<string>, s: State, e: Event)
    requires Inv(store, init, s) && Next(store, s, e).Some?
    ensures var s' := Next(store, s, e).value;
            && ContentOf(s'.files, store) == Serial(init, s'.txs, s'.order)
            && (store in s'.files ==> s'.files[store].synced)
            && (s'.order != [] ==>
                  && (s'.previous.Some? ==> s'.previous.value.synced)
                  && (if s'.previous.Some? then Some(s'.previous.value.content) else None)
                     == Serial(init, s'.txs, s'.order[..|s'.order| - 1]))
  {
    var s' := Next(store, s, e).value;
    StepKeepsUpdates(store, s, e);
    SerialSame(init, s.txs, s'.txs, s.order);
    if e.ReplaceStore? {
      assert TxOk(store, s.files, s.txs[e.t]);
      assert s'.order[..|s'.order| - 1] == s.order;
    } else {
      assert !e.Crash? ==> s.txs[e.t].tmp != store;
      if s.order != [] {
        SerialSame(init, s.txs, s'.txs, s.order[..|s.order| - 1]);
      }
    }
  }

  lemma StepKeepsInv(store: Name, init: Option<string>, s: State, e: Event)
    requires Inv(store, init, s) && Next(store, s, e).Some?
    ensures Inv(store, init, Next(store, s, e).value)
  {
    var s' := Next(store, s, e).value;
    StepKeepsUpdates(store, s, e);
    StepKeepsExclusive(store, s, e);
    StepKeepsOrder(store, s, e);
    StepKeepsSerial(store, init, s, e);
    forall u | 0 <= u < |s'.txs| ensures TxOk(store, s'.files, s'.txs[u]) {
      StepKeepsTx(store, s, e, u);
    }
  }

  lemma {:induction false} RunKeepsInv(store: Name, s: State, events: seq<Event>)
    requires Start(store, s) && Run(store, s, events).Some?
    ensures Inv(store, ContentOf(s.files, store), Run(store, s, events).value)
    ensures SameUpdates(s.txs, Run(store, s, events).value.txs)
    decreases |events|
  {
    if events != [] {
      var before := Run(store, s, events[..|events| - 1]).value;
      RunKeepsInv(store, s, events[..|events| - 1]);
      StepKeepsInv(store, ContentOf(s.files, store), before, events[|events| - 1]);
      StepKeepsUpdates(store, before, events[|events| - 1]);
    }
  }

  /** Serialisable, with no lost update: in every state of every run, with any failures and process
      crashes, the store is the result of some transactions applied one after the other, each of
      them once, and among them are all that have completed. */
  lemma UpdatesAreSerial(store: Name, s: State, events: seq<Event>)
    requires Start(store, s) && Run(store, s, events).Some?
    ensures var s' := Run(store, s, events).value;
            && ContentOf(s'.files, store) == Serial(ContentOf(s.files, store), s.txs, s'.order)
            && (forall t | 0 <= t < |s'.txs| && s'.txs[t].pc == Finished(true) :: t in s'.order)
            && (forall t | t in s'.order :: t < |s'.txs| && !s'.txs[t].pc.Outside? && s'.txs[t].pc != Finished(false))
            && (forall i, j | 0 <= i < j < |s'.order| :: s'.order[i] != s'.order[j])
  {
    RunKeepsInv(store, s, events);
    SerialSame(ContentOf(s.files, store), s.txs, Run(store, s, events).value.txs, Run(store, s, events).value.order);
  }

  // ---- transactions can complete ----

  /** A crash ends all transactions of a process, so that their locks are free, and touches no other
      transaction and no file. */
  lemma CrashReleasesLocks(store: Name, s: State, process: nat, t: nat)
    requires t < |s.txs|
    ensures var s' := Next(store, s, Crash(process)).value;
            && s'.files == s.files && s'.order == s.order && |s'.txs| == |s.txs|
            && (if s.txs[t].process == process then !HoldsThreadLock(s'.txs[t].pc) && !Unfinished(s'.txs[t].pc)
                else s'.txs[t] == s.txs[t])
  {
  }

  predicate Unfinished(pc: Pc) {
    !pc.Finished? && !pc.Dead?
  }

  /** The next step of a transaction that holds the file lock, without failing unless it must. */
  function OwnStep(s: State, t: nat): Event
    requires t < |s.txs|
  {
    var tx := s.txs[t];
    match tx.pc
    case FileLocked => ReadStore(t)
    case Read(_) => OpenScratch(t)
    case Writing(seen, n) => if n < |tx.update(seen)| then WriteChunk(t, |tx.update(seen)|) else Sync(t)
    case Synced(_) => ReplaceStore(t)
    case Replaced => Cleanup(t, true)
    case Failing => Cleanup(t, true)
    case Cleaned(_) => Unlock(t)
    case _ => LockFile(t)
  }

  /** Nobody waits for ever: in every state of every run, an unfinished transaction means that some
      transaction can take a step of its own, which is not a failure. */
  lemma SomebodyCanStep(store: Name, s: State, events: seq<Event>, t: nat) returns (e: Event)
    requires Start(store, s) && Run(store, s, events).Some?
    requires t < |Run(store, s, events).value.txs| && Unfinished(Run(store, s, events).value.txs[t].pc)
    ensures Next(store, Run(store, s, events).value, e).Some? && !e.Crash? && !e.Fail?
  {
    RunKeepsInv(store, s, events);
    var now := Run(store, s, events).value;
    if u :| 0 <= u < |now.txs| && HoldsFileLock(now.txs[u].pc) {
      assert TxOk(store, now.files, now.txs[u]);
      e := OwnStep(now, u);
    } else if u :| 0 <= u < |now.txs| && HoldsThreadLock(now.txs[u].pc) {
      e := LockFile(u);
    } else {
      e := LockThread(t);
    }
  }

  lemma OneMore(store: Name, s: State, events: seq<Event>, e: Event)
    requires Run(store, s, events).Some?
    ensures Run(store, s, events + [e]) == Next(store, Run(store, s, events).value, e)
  {
    assert (events + [e])[..|events + [e]| - 1] == events;
  }

  lemma AloneItReads(store: Name, s: State, t: nat) returns (events: seq<Event>)
    requires Start(store, s) && t < |s.txs|
    ensures Run(store, s, events) == Some(At(s, t, Read(ContentOf(s.files, store))))
  {
    OneMore(store, s, [], LockThread(t));
    OneMore(store, s, [] + [LockThread(t)], LockFile(t));
    OneMore(store, s, [] + [LockThread(t)] + [LockFile(t)], ReadStore(t));
    events := [] + [LockThread(t)] + [LockFile(t)] + [ReadStore(t)];
    assert At(At(At(s, t, ThreadLocked), t, FileLocked), t, Read(ContentOf(s.files, store)))
        == At(s, t, Read(ContentOf(s.files, store)));
  }

  lemma AtTwice(s: State, t: nat, first: Pc, second: Pc)
    requires t < |s.txs|
    ensures At(At(s, t, first), t, second) == At(s, t, second)
  {
  }

  lemma AloneItWrites(store: Name, s: State, before: seq<Event>, now: State, t: nat) returns (events: seq<Event>)
    requires Run(store, s, before) == Some(now) && t < |now.txs| && now.txs[t].pc.Read?
    ensures var seen := now.txs[t].pc.seen;
            var file := File(now.txs[t].update(seen), true);
            Run(store, s, events) == Some(At(now, t, Synced(seen)).(files := now.files[now.txs[t].tmp := file]))
  {
    var seen, tmp := now.txs[t].pc.seen, now.txs[t].tmp;
    var text := now.txs[t].update(seen);
    OneMore(store, s, before, OpenScratch(t));
    events := before + [OpenScratch(t)];
    OneMore(store, s, events, WriteChunk(t, |text|));
    events := events + [WriteChunk(t, |text|)];
    assert text[..|text|] == text;
    var written := Run(store, s, events).value;
    AtTwice(now, t, Writing(seen, 0), Writing(seen, |text|));
    assert written == At(now, t, Writing(seen, |text|)).(files := now.files[tmp := File(text, false)]);
    OneMore(store, s, events, Sync(t));
    events := events + [Sync(t)];
    AtTwice(now, t, Writing(seen, |text|), Synced(seen));
    assert now.files[tmp := File(text, false)][tmp := File(text, true)] == now.files[tmp := File(text, true)];
  }

  lemma AloneItReplaces(store: Name, s: State, before: seq<Event>, now: State, t: nat) returns (events: seq<Event>)
    requires Run(store, s, before) == Some(now) && t < |now.txs| && now.txs[t].pc.Synced?
    requires now.txs[t].tmp in now.files && now.txs[t].tmp != store
    ensures Run(store, s, events).Some?
    ensures var s' := Run(store, s, events).value;
            && |s'.txs| == |now.txs| && s'.txs[t].pc == Finished(true)
            && s'.files == (now.files - {now.txs[t].tmp})[store := now.files[now.txs[t].tmp]]
  {
    var tmp := now.txs[t].tmp;
    OneMore(store, s, before, ReplaceStore(t));
    events := before + [ReplaceStore(t)];
    var replaced := Run(store, s, events).value;
    assert replaced.txs == At(now, t, Replaced).txs && tmp !in replaced.files;
    OneMore(store, s, events, Cleanup(t, true));
    events := events + [Cleanup(t, true)];
    assert Run(store, s, events) == Some(At(replaced, t, Cleaned(true))) by {
      assert replaced.files - {tmp} == replaced.files;
    }
    OneMore(store, s, events, Unlock(t));
    events := events + [Unlock(t)];
  }

  /** A transaction by itself, with nobody in its way, completes, and has applied its update to what the
      store held; its scratch file is gone and every other file is as it was. */
  lemma AloneItCompletes(store: Name, s: State, t: nat) returns (events: seq<Event>)
    requires Start(store, s) && t < |s.txs|
    ensures Run(store, s, events).Some?
    ensures var s' := Run(store, s, events).value;
            && t < |s'.txs| && s'.txs[t].pc == Finished(true)
            && ContentOf(s'.files, store) == Some(s.txs[t].update(ContentOf(s.files, store)))
            && s'.files - {store} == s.files - {store, s.txs[t].tmp}
  {
    events := AloneItReads(store, s, t);
    var reading := Run(store, s, events).value;
    events := AloneItWrites(store, s, events, reading, t);
    var synced := Run(store, s, events).value;
    events := AloneItReplaces(store, s, events, synced, t);
  }

  lemma StepGrowsOrder(store: Name, s: State, e: Event)
    requires Next(store, s, e).Some?
    ensures s.order <= Next(store, s, e).value.order
  {
  }

  lemma {:induction false} OrderGrows(store: Name, s: State, events: seq<Event>, more: seq<Event>)
    requires Run(store, s, events + more).Some?
    ensures Run(store, s, events).Some?
    ensures Run(store, s, events).value.order <= Run(store, s, events + more).value.order
    decreases |more|
  {
    if more == [] {
      assert events + more == events;
    } else {
      var all := events + more;
      assert all[..|all| - 1] == events + more[..|more| - 1];
      OrderGrows(store, s, events, more[..|more| - 1]);
      StepGrowsOrder(store, Run(store, s, all[..|all| - 1]).value, all[|all| - 1]);
    }
  }

  /** The serial order is one of real time: a transaction that has completed before another one
      starts comes before it. */
  lemma OrderFollowsTime(
    store: Name, s: State, events: seq<Event>, more: seq<Event>, t: nat, u: nat) returns (i: nat)
    requires Start(store, s) && Run(store, s, events + more).Some? && Run(store, s, events).Some?
    requires var s1 := Run(store, s, events).value;
             t < |s1.txs| && u < |s1.txs| && s1.txs[t].pc == Finished(true) && s1.txs[u].pc.Outside?
    ensures var order := Run(store, s, events + more).value.order;
            && i < |order| && order[i] == t
            && forall j | 0 <= j < |order| && order[j] == u :: i < j
  {
    RunKeepsInv(store, s, events);
    OrderGrows(store, s, events, more);
    var early := Run(store, s, events).value.order;
    i :| 0 <= i < |early| && early[i] == t;
    assert u !in early;
  }

  /** What a power cut can leave: a file that was synced keeps its content, and the last replacement
      may not have reached the directory. */
  ghost predicate PowerCut(store: Name, s: State, after: Files) {
    || (store in s.files && store in after
        && (s.files[store].synced ==> after[store].content == s.files[store].content))
    || (store !in s.files && store !in after)
    || (s.order != [] && s.previous.None? && store !in after)
    || (s.order != [] && s.previous.Some? && store in after
        && (s.previous.value.synced ==> after[store].content == s.previous.value.content))
  }

  /** Crash-safe: cut the power in any state of any run, and the store holds, in full, its content
      with or without the last update. */
  lemma PowerCutLeavesWholeVersion(store: Name, s: State, events: seq<Event>, after: Files)
    requires Start(store, s) && Run(store, s, events).Some?
    requires PowerCut(store, Run(store, s, events).value, after)
    ensures var order := Run(store, s, events).value.order;
            var init := ContentOf(s.files, store);
            || ContentOf(after, store) == Serial(init, s.txs, order)
            || (order != [] && ContentOf(after, store) == Serial(init, s.txs, order[..|order| - 1]))
  {
    RunKeepsInv(store, s, events);
    var s' := Run(store, s, events).value;
    SerialSame(ContentOf(s.files, store), s.txs, s'.txs, s'.order);
    if s'.order != [] {
      SerialSame(ContentOf(s.files, store), s.txs, s'.txs, s'.order[..|s'.order| - 1]);
    }
  }
}
