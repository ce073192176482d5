/** The session manager as objects: cached `Session` objects are mutable and may outlive their
    place in the cache.  Every method is proved against the operation on values in `SessionCache`. */
module SessionManagement {
  import opened Prelude
  import opened SessionCache

  class Session {
    const id: Sid
    var history: seq<Msg>
    var messageCount: int

    constructor (id: Sid, history: seq<Msg>, messageCount: int)
      ensures this.id == id && this.history == history && this.messageCount == messageCount
    {
      this.id, this.history, this.messageCount := id, history, messageCount;
    }
  }

  class Database {
    var rows: map<Sid, Row>

    /** The message rows of a session, read one by one in timestamp order. */
    method ReadMessages(sid: Sid) returns (history: seq<Msg>)
      requires sid in rows
      ensures history == rows[sid].messages
    {
      history := [];
      var stored := rows[sid].messages;
      for i := 0 to |stored|
        invariant history == stored[..i]
      {
        history := history + [stored[i]];
      }
    }
  }

  class SessionManager {
    const db: Database
    var sessions: map<Sid, Session>

    constructor (db: Database)
      ensures this.db == db && sessions == map[] && Valid()
    {
      this.db, sessions := db, map[];
    }

    /** A cached object is filed under its own id; hence no object is filed twice. */
    ghost predicate Valid()
      reads this
    {
      forall sid | sid in sessions :: sessions[sid].id == sid
    }

    ghost function View(): Store
      reads this, db, sessions.Values
    {
      Store(db.rows, map sid | sid in sessions :: Cached(sessions[sid].history, sessions[sid].messageCount))
    }

    /** Files a session object under its id. */
    method Cache(session: Session)
      requires Valid()
      modifies this
      ensures Valid() && sessions == old(sessions)[session.id := session]
      ensures View() ==
        old(View()).(cache := old(View()).cache[session.id := Cached(session.history, session.messageCount)])
    {
      sessions := sessions[session.id := session];
      assert View().cache == old(View()).cache[session.id := Cached(session.history, session.messageCount)];
    }

    /** Startup: one stub per chosen session that has messages. */
    method LoadSessions(chosen: set<Sid>)
      requires Valid()
      modifies this
      ensures Valid() && View() == Startup(db.rows, chosen)
    {
      sessions := map[];
      var todo := chosen;
      while todo != {}
        invariant Valid() && todo <= chosen
        invariant View() == Startup(db.rows, chosen - todo)
        decreases todo
      {
        var sid :| sid in todo;
        StartupOne(db.rows, chosen - todo, sid);
        assert chosen - (todo - {sid}) == (chosen - todo) + {sid};
        todo := todo - {sid};
        if sid in db.rows && db.rows[sid].messages != [] {
          var stub := new Session(sid, [], |db.rows[sid].messages|);
          Cache(stub);
        }
      }
      assert chosen - todo == chosen;
    }

    method LoadFromDb(sid: Sid)
      requires Valid() && sid in db.rows
      modifies this
      ensures Valid() && View() == Load(old(View()), sid)
      ensures sid in sessions && fresh(sessions[sid]) && sessions == old(sessions)[sid := sessions[sid]]
    {
      var history := db.ReadMessages(sid);
      var count := if history == [] then db.rows[sid].column else |history|;
      var session := new Session(sid, history, count);
      Cache(session);
    }

    /** Writes both fields of the cached object of `sid`, and of no other. */
    method SetCached(sid: Sid, history: seq<Msg>, count: int)
      requires Valid() && sid in sessions
      modifies sessions[sid]
      ensures View() == old(View()).(cache := old(View()).cache[sid := Cached(history, count)])
    {
      sessions[sid].history := history;
      sessions[sid].messageCount := count;
      assert View().cache == old(View()).cache[sid := Cached(history, count)];
    }

    method SyncMetadata(sid: Sid) returns (ok: bool)
      requires Valid()
      modifies sessions.Values
      ensures Valid() && View() == Sync(old(View()), sid)
      ensures ok <==> sid in sessions && sid in db.rows
    {
      if sid !in sessions || sid !in db.rows {
        return false;
      }
      SetCached(sid, sessions[sid].history, |db.rows[sid].messages|);
      ok := true;
    }

    /** `None` is the `KeyError`.  No row is written, and the only objects touched are the cached one
        of this id and new ones. */
    method GetSession(sid: Sid) returns (session: Session?)
      requires Valid()
      modifies this, sessions.Values
      ensures Valid() && View() == Get(old(View()), sid).store
      ensures (session != null) == Get(old(View()), sid).found
      ensures session != null ==> sid in sessions && sessions[sid] == session
      ensures old(Agrees(View())) && sid in db.rows ==> session != null && session.history == db.rows[sid].messages
      ensures session != null ==> fresh(session) || (sid in old(sessions) && old(sessions)[sid] == session)
    {
      if old(Agrees(View())) && sid in db.rows {
        GetReturnsTranscript(View(), sid);
      }
      if sid !in sessions {
        if sid !in db.rows {
          return null;
        }
        LoadFromDb(sid);
      }
      var _ := SyncMetadata(sid);
      if |sessions[sid].history| < sessions[sid].messageCount {
        if sid !in db.rows {
          return null;
        }
        LoadFromDb(sid);
      }
      session := sessions[sid];
    }

    method PersistMessage(sid: Sid, m: Msg, saved: bool)
      requires Valid()
      modifies this, db
      ensures Valid() && View() == Persist(old(View()), sid, m, saved)
    {
      if sid !in db.rows {
        sessions := sessions - {sid};
        assert View().cache == old(View()).cache - {sid};
        return;
      }
      if saved {
        var column := if sid in sessions then |sessions[sid].history| else 0;
        db.rows := db.rows[sid := Row(column, db.rows[sid].messages + [m])];
      }
    }

    method AddMessage(sid: Sid, m: Msg, saved: bool)
      requires Valid()
      modifies this, db, sessions.Values
      ensures Valid() && View() == SessionCache.AddMessage(old(View()), sid, m, saved)
    {
      var session := GetSession(sid);
      if session != null {
        SetCached(sid, session.history + [m], |session.history| + 1);
        PersistMessage(sid, m, saved);
      }
    }

    /** `Session.add_message` on any session object, cached or detached. */
    method AddMessageOn(session: Session, m: Msg, saved: bool)
      requires Valid()
      modifies this, db, session
      ensures Valid()
      ensures View() == if session.id in old(sessions) && old(sessions)[session.id] == session
                        then AddOnCached(old(View()), session.id, m, saved)
                        else AddOnDetached(old(View()), session.id, m, saved)
      ensures session.history == old(session.history) + [m]
    {
      ghost var before := View();
      session.history := session.history + [m];
      session.messageCount := |session.history|;
      if session.id in sessions && sessions[session.id] == session {
        assert View() == Append(before, session.id, m);
      } else {
        assert View() == before;
      }
      PersistMessage(session.id, m, saved);
    }

    method TruncateMessages(sid: Sid, keep: int, saved: bool) returns (ok: bool)
      requires Valid()
      modifies this, db, sessions.Values
      ensures Valid() && View() == Truncate(old(View()), sid, keep, saved)
      ensures ok <==> Get(old(View()), sid).found && keep >= 0 && saved
    {
      ok := false;
      var session := GetSession(sid);
      if session == null || keep < 0 || !saved {
        return;
      }
      ghost var got := View();
      if sid in db.rows {
        var kept := Take(db.rows[sid].messages, keep);
        db.rows := db.rows[sid := Row(|kept|, kept)];
        assert View() == got.(rows := got.rows[sid := Row(|kept|, kept)]);
      }
      SetCached(sid, Take(session.history, keep), session.messageCount);
      ok := true;
    }

    method ReplaceMessages(sid: Sid, messages: seq<Msg>, saved: bool) returns (ok: bool)
      requires Valid()
      modifies this, db, sessions.Values
      ensures Valid() && View() == Replace(old(View()), sid, messages, saved)
      ensures ok <==> sid in old(db.rows) && Get(old(View()), sid).found && saved
    {
      ok := false;
      var session := GetSession(sid);
      if session == null || sid !in db.rows || !saved {
        return;
      }
      ghost var got := View();
      db.rows := db.rows[sid := Row(|messages|, messages)];
      assert View() == got.(rows := got.rows[sid := Row(|messages|, messages)]);
      SetCached(sid, messages, |messages|);
      ok := true;
    }

    method CreateSession(sid: Sid, saved: bool) returns (session: Session?)
      requires Valid()
      modifies this, db
      ensures Valid() && View() == Create(old(View()), sid, saved)
      ensures session != null <==> sid !in old(db.rows) && saved
      ensures session != null ==>
        fresh(session) && sid in sessions && sessions[sid] == session && session.history == []
    {
      if sid in db.rows || !saved {
        return null;
      }
      db.rows := db.rows[sid := Row(0, [])];
      session := new Session(sid, [], 0);
      Cache(session);
    }

    method DeleteSession(sid: Sid, ending: Ending) returns (ok: bool)
      requires Valid()
      modifies this, db
      ensures Valid() && View() == Delete(old(View()), sid, ending)
      ensures ok <==> ending.Committed? && (sid in old(db.rows) || sid in old(sessions))
    {
      if ending.FailedEarly? {
        return false;
      }
      var removed := sid in sessions;
      sessions := sessions - {sid};
      assert View().cache == old(View()).cache - {sid};
      if ending.FailedAtCommit? {
        return false;
      }
      ok := removed || sid in db.rows;
      db.rows := db.rows - {sid};
    }
  }
}
