/** The auth manager as an object: a dictionary from usernames to mutable records, and a
    dictionary of session tokens.  Each method is one critical section and is proved against the
    operation of the same name in `AuthModel`. */
module AuthManagement {
  import opened Prelude
  import opened AuthModel
  import AuthMachine

  const TOKEN_TTL: int := 604800

  class UserRecord {
    var password: string
    var isAdmin: bool
    var privileges: Option<Privileges>
    var stash: Option<Privileges>

    constructor (user: User)
      ensures Value() == user
    {
      password, isAdmin, privileges, stash := user.password, user.isAdmin, user.privileges, user.stash;
    }

    ghost function Value(): User
      reads this
    {
      User(password, isAdmin, privileges, stash)
    }

    /** The writes of a promotion, in the order lock-free readers rely on. */
    method Promote()
      modifies this
      ensures Value() == Promoted(old(Value()))
    {
      isAdmin := true;
      stash := Some(OrDefault(privileges));
      privileges := Some(ADMIN_PRIVILEGES);
    }

    /** The writes of a demotion, in the order lock-free readers rely on. */
    method Demote()
      modifies this
      ensures Value() == Demoted(old(Value()))
    {
      var stashed := stash;
      stash := None;
      privileges := Some(OrDefault(stashed));
      isAdmin := false;
    }
  }

  class AuthManager {
    var users: map<Name, UserRecord>
    var sessions: map<AuthMachine.Token, AuthMachine.Session>

    /** No record is filed under two names. */
    ghost predicate Valid()
      reads this`users
    {
      forall a, b | a in users && b in users && a != b :: users[a] != users[b]
    }

    ghost function View(): Users
      reads this`users, users.Values
    {
      map n | n in users :: users[n].Value()
    }

    method CountAdmins() returns (count: nat)
      ensures count == |Admins(View())|
    {
      count := 0;
      var todo := users.Keys;
      ghost var found: set<Name> := {};
      while todo != {}
        invariant todo <= users.Keys
        invariant found == set n | n in users && n !in todo && users[n].isAdmin
        invariant count == |found|
        decreases todo
      {
        var n :| n in todo;
        if users[n].isAdmin {
          count := count + 1;
          found := found + {n};
        }
        todo := todo - {n};
      }
      assert found == Admins(View());
    }

    method GetPrivileges(name: Name) returns (p: Privileges)
      ensures p == if name in View() then Effective(View()[name]) else DEFAULT_PRIVILEGES
    {
      if name !in users {
        p := DEFAULT_PRIVILEGES + map[];
        assert p == DEFAULT_PRIVILEGES;
      } else if users[name].isAdmin {
        p := ADMIN_PRIVILEGES;
      } else {
        var stored := users[name].privileges;
        p := DEFAULT_PRIVILEGES + if stored.Some? then stored.value else map[];
      }
    }

    method CreateUser(name: Name, password: string, isAdmin: bool) returns (ok: bool)
      requires Valid()
      modifies this`users
      ensures Valid() && (View(), ok) == Create(old(View()), name, password, isAdmin)
    {
      if name == "" || name in RESERVED_USERNAMES || name in users {
        return false;
      }
      var defaults := if isAdmin then ADMIN_PRIVILEGES else DEFAULT_PRIVILEGES;
      var record := new UserRecord(User(password, isAdmin, Some(defaults), None));
      users := users[name := record];
      ok := true;
      assert View() == old(View())[name := User(password, isAdmin, Some(defaults), None)];
    }

    /** Both lock regions of a deletion, with nothing in between. */
    method DeleteUser(name: Name, requester: Name, tokensRevoked: bool) returns (ok: bool)
      requires Valid()
      modifies this
      ensures Valid() && (View(), ok) == Delete(old(View()), name, requester, tokensRevoked)
      ensures sessions == if ok then AuthMachine.WithoutUser(old(sessions), name) else old(sessions)
    {
      if name !in users || name == requester {
        return false;
      }
      if requester !in users || !users[requester].isAdmin || !tokensRevoked {
        return false;
      }
      users := users - {name};
      sessions := map t | t in sessions && sessions[t].name != name :: sessions[t];
      ok := true;
      assert View() == old(View()) - {name};
    }

    method RenameUser(oldName: Name, newName: Name, requester: Name) returns (ok: bool)
      requires Valid()
      modifies this
      ensures Valid() && (View(), ok) == Rename(old(View()), oldName, newName, requester)
      ensures users == if ok then (old(users) - {oldName})[newName := old(users)[oldName]] else old(users)
      ensures sessions == if ok then AuthMachine.Renamed(old(sessions), oldName, newName) else old(sessions)
    {
      if oldName == "" || newName == "" || newName in RESERVED_USERNAMES || oldName !in users || newName in users {
        return false;
      }
      if requester !in users || !users[requester].isAdmin {
        return false;
      }
      MoveRecord(oldName, newName);
      sessions := map t | t in sessions ::
        if sessions[t].name == oldName then sessions[t].(name := newName) else sessions[t];
      ok := true;
    }

    method MoveRecord(oldName: Name, newName: Name)
      requires Valid() && oldName in users && newName !in users
      modifies this`users
      ensures Valid() && users == (old(users) - {oldName})[newName := old(users)[oldName]]
      ensures View() == (old(View()) - {oldName})[newName := old(View())[oldName]]
    {
      var record := users[oldName];
      users := users - {oldName};
      users := users[newName := record];
    }

    /** The request merged over `current`, unless a known privilege has a value of the wrong kind. */
    static method MergeRequest(defaults: Privileges, current: Privileges, request: Privileges)
      returns (merged: Option<Privileges>)
      ensures merged == if Malformed(defaults, request) then None else Some(current + Known(defaults, request))
    {
      var result := current;
      var todo := request.Keys;
      while todo != {}
        invariant todo <= request.Keys
        invariant forall k | k in request && k !in todo :: k in defaults ==> SameKind(defaults[k], request[k])
        invariant result.Keys == current.Keys + ((request.Keys - todo) * defaults.Keys)
        invariant forall k | k in result ::
                    result[k] == if k in request && k !in todo && k in defaults then request[k] else current[k]
        decreases todo
      {
        var k :| k in todo;
        todo := todo - {k};
        if k in defaults {
          if !SameKind(defaults[k], request[k]) {
            return None;
          }
          result := result[k := request[k]];
        }
      }
      assert result == current + Known(defaults, request);
      merged := Some(result);
    }

    method SetPrivileges(name: Name, request: Privileges) returns (result: SetPrivilegesResult)
      requires Valid()
      modifies users.Values
      ensures Valid() && (View(), result) == AuthModel.SetPrivileges(old(View()), name, request)
    {
      if name !in users || users[name].isAdmin {
        return Refused;
      }
      var current := GetPrivileges(name);
      var merged := MergeRequest(DEFAULT_PRIVILEGES, current, request);
      if merged.None? {
        return InvalidValue;
      }
      users[name].privileges := merged;
      result := Updated;
      OneRecordChanged(name);
    }

    method SetAdmin(name: Name, isAdmin: bool, requester: Name, tokensRevoked: bool) returns (result: SetAdminResult)
      requires Valid()
      modifies users.Values
      ensures Valid() && (View(), result) == AuthModel.SetAdmin(old(View()), name, isAdmin, requester, tokensRevoked)
    {
      if name !in users {
        return UserNotFound;
      }
      if requester !in users || !users[requester].isAdmin {
        return NotAuthorized;
      }
      var target := users[name];
      if target.isAdmin == isAdmin {
        return Ok;
      }
      if !isAdmin {
        var count := CountAdmins();
        if count <= 1 {
          return LastAdmin;
        }
        if !tokensRevoked {
          return TokenStoreFailed;
        }
      }
      SetAdminWrites(old(View()), name, isAdmin, requester, tokensRevoked);
      WriteAdmin(name, isAdmin);
      result := Ok;
    }

    /** Writing one record changes one entry of the user map. */
    twostate lemma OneRecordChanged(name: Name)
      requires Valid() && users == old(users) && name in users
      requires forall n | n in users && n != name :: unchanged(users[n])
      ensures View() == old(View())[name := users[name].Value()]
    {
    }

    method WriteAdmin(name: Name, isAdmin: bool)
      requires Valid() && name in users
      modifies users[name]
      ensures View() == old(View())[name := if isAdmin then Promoted(old(View())[name]) else Demoted(old(View())[name])]
    {
      if isAdmin {
        users[name].Promote();
      } else {
        users[name].Demote();
      }
      OneRecordChanged(name);
    }

    method ResetUserPassword(name: Name, password: string, requester: Name) returns (ok: bool)
      requires Valid()
      modifies this`sessions, users.Values
      ensures Valid() && (View(), ok) == ResetPassword(old(View()), name, password, requester)
      ensures sessions == if ok then AuthMachine.WithoutUser(old(sessions), name) else old(sessions)
    {
      if requester !in users || !users[requester].isAdmin || name !in users || users[name].isAdmin {
        return false;
      }
      users[name].password := password;
      sessions := map t | t in sessions && sessions[t].name != name :: sessions[t];
      ok := true;
      OneRecordChanged(name);
    }

    /** A session is issued only to a user in the map.  `token` is the random token drawn. */
    method CreateSessionTrusted(name: Name, token: AuthMachine.Token, now: int)
      returns (issued: Option<AuthMachine.Token>)
      modifies this`sessions
      ensures issued == if name in users then Some(token) else None
      ensures sessions == if name in users
                          then old(sessions)[token := AuthMachine.Session(name, now + TOKEN_TTL)] else old(sessions)
    {
      if name !in users {
        return None;
      }
      sessions := sessions[token := AuthMachine.Session(name, now + TOKEN_TTL)];
      issued := Some(token);
    }

    /** A token is accepted exactly when it names a user in the map and has not expired; any other
        known token is dropped.  A missing token is the empty one. */
    method ValidateToken(token: AuthMachine.Token, now: int) returns (ok: bool)
      modifies this`sessions
      ensures ok <==>
        && token != "" && token in old(sessions)
        && now <= old(sessions)[token].expiry && old(sessions)[token].name in users
      ensures sessions == if ok || token == "" then old(sessions) else old(sessions) - {token}
    {
      if token == "" {
        return false;
      }
      if token !in sessions {
        assert sessions - {token} == sessions;
        return false;
      }
      if now > sessions[token].expiry || sessions[token].name !in users {
        sessions := sessions - {token};
        return false;
      }
      ok := true;
    }
  }
}
