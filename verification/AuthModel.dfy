/** The user map of the auth manager and what each manager operation, seen as one
    lock region, does to it.  Usernames are already stripped and lower-cased. */
module AuthModel {
  import opened Prelude

  type Name = string

  /** A JSON value as the privilege editor distinguishes it; `OtherList` is a list with elements
      that are not strings. */
  datatype Value = Flag(on: bool) | Count(n: int) | Names(names: seq<string>) | OtherList | OtherJson

  /** The keys of the privilege map; `Unlisted` is any key without a default. */
  datatype Privilege =
    | CanUseAgent
    | CanUseBrowser
    | CanUseBash
    | CanUseDocuments
    | CanUseResearch
    | CanGenerateImages
    | CanManageMemory
    | MaxMessagesPerDay
    | AllowedModels
    | AllowedModelsRestricted
    | BlockAllModels
    | Unlisted(name: string)

  type Privileges = map<Privilege, Value>

  const DEFAULT_PRIVILEGES: Privileges := map[
    CanUseAgent := Flag(true),
    CanUseBrowser := Flag(true),
    CanUseBash := Flag(false),
    CanUseDocuments := Flag(true),
    CanUseResearch := Flag(true),
    CanGenerateImages := Flag(true),
    CanManageMemory := Flag(true),
    MaxMessagesPerDay := Count(0),
    AllowedModels := Names([]),
    AllowedModelsRestricted := Flag(false),
    BlockAllModels := Flag(false)
  ]

  /** Every flag on, every count 0, every list empty, except the two sentinels
      that would restrict an admin. */
  const ADMIN_PRIVILEGES: Privileges :=
    (map k | k in DEFAULT_PRIVILEGES :: FullGrant(DEFAULT_PRIVILEGES[k]))
    [AllowedModelsRestricted := Flag(false)]
    [BlockAllModels := Flag(false)]

  const RESERVED_USERNAMES: set<Name> :=
    {"internal-tool", "api", "demo", "system", "__odysseus_local__"}

  function FullGrant(v: Value): Value {
    match v
    case Flag(_) => Flag(true)
    case Count(_) => Count(0)
    case _ => Names([])
  }

  predicate SameKind(default: Value, v: Value) {
    match default
    case Flag(_) => v.Flag?
    case Count(_) => v.Count?
    case _ => v.Names? || v.OtherList?
  }

  /** One user record.  `stash` is the map saved by a promotion. */
  datatype User = User(
    password: string,
    isAdmin: bool,
    privileges: Option<Privileges>,
    stash: Option<Privileges>)

  type Users = map<Name, User>

  function Stored(user: User): Privileges {
    if user.privileges.Some? then user.privileges.value else map[]
  }

  /** The privileges the rest of the application sees. */
  function Effective(user: User): Privileges {
    if user.isAdmin then ADMIN_PRIVILEGES else DEFAULT_PRIVILEGES + Stored(user)
  }

  /** Python's `m or DEFAULT_PRIVILEGES`: a missing or empty map counts as absent. */
  function OrDefault(m: Option<Privileges>): Privileges {
    if m.Some? && m.value != map[] then m.value else DEFAULT_PRIVILEGES
  }

  function Admins(users: Users): set<Name> {
    set n | n in users && users[n].isAdmin
  }

  predicate IsAdmin(users: Users, name: Name) {
    name in users && users[name].isAdmin
  }

  // ---- operations, each one lock region ----

  function Create(users: Users, name: Name, password: string, isAdmin: bool): (Users, bool) {
    if name == "" || name in RESERVED_USERNAMES || name in users then (users, false)
    else
      var map0 := if isAdmin then ADMIN_PRIVILEGES else DEFAULT_PRIVILEGES;
      (users[name := User(password, isAdmin, Some(map0), None)], true)
  }

  /** `tokensRevoked` is whether the bearer-token rows could be deleted. */
  function Delete(users: Users, name: Name, requester: Name, tokensRevoked: bool): (Users, bool) {
    if name !in users || name == requester || !IsAdmin(users, requester) || !tokensRevoked
    then (users, false)
    else (users - {name}, true)
  }

  function Rename(users: Users, oldName: Name, newName: Name, requester: Name): (Users, bool) {
    if || oldName == "" || newName == "" || newName in RESERVED_USERNAMES
       || oldName !in users || newName in users || !IsAdmin(users, requester)
    then (users, false)
    else ((users - {oldName})[newName := users[oldName]], true)
  }

  datatype SetPrivilegesResult = Updated | Refused | InvalidValue

  predicate Malformed(defaults: Privileges, request: Privileges) {
    exists k | k in request :: k in defaults && !SameKind(defaults[k], request[k])
  }

  function Known(defaults: Privileges, request: Privileges): Privileges {
    map k | k in request && k in defaults :: request[k]
  }

  function SetPrivileges(users: Users, name: Name, request: Privileges): (Users, SetPrivilegesResult) {
    if name !in users || users[name].isAdmin then (users, Refused)
    else if Malformed(DEFAULT_PRIVILEGES, request) then (users, InvalidValue)
    else
      var user := users[name];
      (users[name := user.(privileges := Some(Effective(user) + Known(DEFAULT_PRIVILEGES, request)))], Updated)
  }

  datatype SetAdminResult = Ok | UserNotFound | NotAuthorized | LastAdmin | TokenStoreFailed

  /** What `set_admin` decides before it writes anything; `None` means "go on and write". */
  function SetAdminVerdict(users: Users, name: Name, isAdmin: bool, requester: Name, tokensRevoked: bool)
    : Option<SetAdminResult>
  {
    if name !in users then Some(UserNotFound)
    else if !IsAdmin(users, requester) then Some(NotAuthorized)
    else if users[name].isAdmin == isAdmin then Some(Ok)
    else if !isAdmin && |Admins(users)| <= 1 then Some(LastAdmin)
    else if !isAdmin && !tokensRevoked then Some(TokenStoreFailed)
    else None
  }

  function Promoted(user: User): User {
    User(user.password, true, Some(ADMIN_PRIVILEGES), Some(OrDefault(user.privileges)))
  }

  function Demoted(user: User): User {
    User(user.password, false, Some(OrDefault(user.stash)), None)
  }

  function SetAdmin(users: Users, name: Name, isAdmin: bool, requester: Name, tokensRevoked: bool)
    : (Users, SetAdminResult)
  {
    var verdict := SetAdminVerdict(users, name, isAdmin, requester, tokensRevoked);
    if verdict.Some? then (users, verdict.value)
    else (users[name := if isAdmin then Promoted(users[name]) else Demoted(users[name])], Ok)
  }

  function ResetPassword(users: Users, name: Name, password: string, requester: Name): (Users, bool) {
    if !IsAdmin(users, requester) || name !in users || users[name].isAdmin then (users, false)
    else (users[name := users[name].(password := password)], true)
  }

  function ChangePassword(users: Users, name: Name, current: string, password: string): (Users, bool) {
    if name !in users || users[name].password != current then (users, false)
    else (users[name := users[name].(password := password)], true)
  }

  datatype Op =
    | CreateOp(name: Name, password: string, isAdmin: bool)
    | DeleteOp(name: Name, requester: Name, tokensRevoked: bool)
    | RenameOp(name: Name, newName: Name, requester: Name)
    | SetPrivilegesOp(name: Name, request: Privileges)
    | SetAdminOp(name: Name, isAdmin: bool, requester: Name, tokensRevoked: bool)
    | ResetPasswordOp(name: Name, password: string, requester: Name)
    | ChangePasswordOp(name: Name, current: string, password: string)

  function Apply(users: Users, op: Op): Users {
    match op
    case CreateOp(n, p, a) => Create(users, n, p, a).0
    case DeleteOp(n, r, t) => Delete(users, n, r, t).0
    case RenameOp(n, n', r) => Rename(users, n, n', r).0
    case SetPrivilegesOp(n, q) => SetPrivileges(users, n, q).0
    case SetAdminOp(n, a, r, t) => SetAdmin(users, n, a, r, t).0
    case ResetPasswordOp(n, p, r) => ResetPassword(users, n, p, r).0
    case ChangePasswordOp(n, c, p) => ChangePassword(users, n, c, p).0
  }

  /** Where the record called `name` is after `op`: renames are followed, a deletion loses it. */
  function Follow(users: Users, name: Name, op: Op): Option<Name> {
    if op.RenameOp? && op.name == name && Rename(users, name, op.newName, op.requester).1 then Some(op.newName)
    else if name in Apply(users, op) then Some(name)
    else None
  }

  /** The record called `name` still exists after every operation of `ops`, under whatever
      name, and is an admin throughout; the result is its last name and the last user map. */
  function AdminStint(users: Users, name: Name, ops: seq<Op>): Option<(Users, Name)>
    decreases |ops|
  {
    if !IsAdmin(users, name) then None
    else if ops == [] then Some((users, name))
    else
      var next := Follow(users, name, ops[0]);
      if next.None? then None else AdminStint(Apply(users, ops[0]), next.value, ops[1..])
  }

  /** An admin record keeps its stash whatever is done to the user map, as long as it stays an admin. */
  lemma StashIsInert(users: Users, name: Name, op: Op)
    requires IsAdmin(users, name)
    ensures var next := Follow(users, name, op);
            next.Some? && IsAdmin(Apply(users, op), next.value)
            ==> Apply(users, op)[next.value].stash == users[name].stash
  {
  }

  lemma {:induction false} StashSurvivesStint(users: Users, name: Name, ops: seq<Op>)
    requires AdminStint(users, name, ops).Some?
    ensures var (users', name') := AdminStint(users, name, ops).value;
            IsAdmin(users, name) && IsAdmin(users', name') && users'[name'].stash == users[name].stash
    decreases |ops|
  {
    if ops != [] {
      StashIsInert(users, name, ops[0]);
      StashSurvivesStint(Apply(users, ops[0]), Follow(users, name, ops[0]).value, ops[1..]);
    }
  }

  lemma MergeFacts(d: Privileges, m: Privileges)
    ensures d + map[] == d
    ensures m.Keys == d.Keys ==> d + m == m
  {
  }

  lemma AdminMapsCoverDefaults()
    ensures ADMIN_PRIVILEGES.Keys == DEFAULT_PRIVILEGES.Keys
    ensures DEFAULT_PRIVILEGES + ADMIN_PRIVILEGES == ADMIN_PRIVILEGES
    ensures DEFAULT_PRIVILEGES + DEFAULT_PRIVILEGES == DEFAULT_PRIVILEGES
    ensures DEFAULT_PRIVILEGES + map[] == DEFAULT_PRIVILEGES
    ensures DEFAULT_PRIVILEGES != map[]
  {
    assert BlockAllModels in DEFAULT_PRIVILEGES && AllowedModelsRestricted in DEFAULT_PRIVILEGES;
    MergeFacts(DEFAULT_PRIVILEGES, ADMIN_PRIVILEGES);
    MergeFacts(DEFAULT_PRIVILEGES, DEFAULT_PRIVILEGES);
  }

  /** A merge with the defaults does not tell an empty map from the defaults. */
  lemma MergeOrDefault(m: Option<Privileges>)
    ensures DEFAULT_PRIVILEGES + OrDefault(m) == DEFAULT_PRIVILEGES + (if m.Some? then m.value else map[])
    ensures OrDefault(Some(OrDefault(m))) == OrDefault(m)
    ensures OrDefault(m) != map[]
  {
    AdminMapsCoverDefaults();
  }

  /** Demoting a record whose stash was taken from `user` gives back what `user` could do. */
  lemma DemotionRestores(user: User, stint: User)
    requires !user.isAdmin && stint.stash == Some(OrDefault(user.privileges))
    ensures Effective(Demoted(stint)) == Effective(user)
  {
    MergeOrDefault(user.privileges);
  }

  /** Without a stash, demotion falls back to the defaults. */
  lemma DemotionFallsBack(stint: User)
    requires stint.stash.None?
    ensures Effective(Demoted(stint)) == DEFAULT_PRIVILEGES
  {
    AdminMapsCoverDefaults();
  }

  /** A change that nothing refuses writes the promoted or the demoted record. */
  lemma SetAdminWrites(users: Users, name: Name, isAdmin: bool, requester: Name, tokensRevoked: bool)
    requires SetAdminVerdict(users, name, isAdmin, requester, tokensRevoked).None?
    ensures name in users
    ensures SetAdmin(users, name, isAdmin, requester, tokensRevoked)
         == (users[name := if isAdmin then Promoted(users[name]) else Demoted(users[name])], Ok)
  {
  }

  /** A temporary admin stint is neutral: whatever operations run between a promotion and the
      matching demotion of one record, its effective privileges come back unchanged. */
  lemma AdminStintIsNeutral(
    users: Users, name: Name, requester: Name, ops: seq<Op>, requester': Name)
    requires name in users && !users[name].isAdmin
    requires SetAdmin(users, name, true, requester, true).1 == Ok
    requires AdminStint(SetAdmin(users, name, true, requester, true).0, name, ops).Some?
    ensures var (last, name') := AdminStint(SetAdmin(users, name, true, requester, true).0, name, ops).value;
            var (after, result) := SetAdmin(last, name', false, requester', true);
            result == Ok ==> name' in after && Effective(after[name']) == Effective(users[name])
  {
    SetAdminWrites(users, name, true, requester, true);
    var promoted := users[name := Promoted(users[name])];
    var (last, name') := AdminStint(promoted, name, ops).value;
    StashSurvivesStint(promoted, name, ops);
    if SetAdmin(last, name', false, requester', true).1 == Ok {
      SetAdminWrites(last, name', false, requester', true);
      DemotionRestores(users[name], last[name']);
    }
  }

  /** A user created as an admin demotes to the defaults, never to the admin map. */
  lemma CreatedAdminDemotesToDefaults(
    users: Users, name: Name, password: string, ops: seq<Op>, requester: Name)
    requires Create(users, name, password, true).1
    requires AdminStint(Create(users, name, password, true).0, name, ops).Some?
    ensures var (last, name') := AdminStint(Create(users, name, password, true).0, name, ops).value;
            var (after, result) := SetAdmin(last, name', false, requester, true);
            result == Ok ==> name' in after && Effective(after[name']) == DEFAULT_PRIVILEGES
  {
    var created := Create(users, name, password, true).0;
    var (last, name') := AdminStint(created, name, ops).value;
    StashSurvivesStint(created, name, ops);
    if SetAdmin(last, name', false, requester, true).1 == Ok {
      SetAdminWrites(last, name', false, requester, true);
      DemotionFallsBack(last[name']);
    }
  }

  // ---- who may do what, and what it does ----

  /** On whose authority an operation acts; creation and privilege edits are authorised by the routes. */
  function Requester(op: Op): Option<Name> {
    match op
    case DeleteOp(_, r, _) => Some(r)
    case RenameOp(_, _, r) => Some(r)
    case SetAdminOp(_, _, r, _) => Some(r)
    case ResetPasswordOp(_, _, r) => Some(r)
    case _ => None
  }

  /** Deleting, renaming, promoting, demoting and resetting change nothing unless an admin asks. */
  lemma OnlyAdminsAct(users: Users, op: Op)
    requires Requester(op).Some? && !IsAdmin(users, Requester(op).value)
    ensures Apply(users, op) == users
  {
  }

  /** The records an operation is about. */
  function Targets(op: Op): set<Name> {
    match op
    case RenameOp(o, n, _) => {o, n}
    case _ => {op.name}
  }

  /** No operation touches anybody else's record, and none overwrites a record by another one. */
  lemma OthersStay(users: Users, op: Op, other: Name)
    requires other in users
    ensures other !in Targets(op) || op.CreateOp? || (op.RenameOp? && op.newName == other != op.name)
            ==> other in Apply(users, op) && Apply(users, op)[other] == users[other]
  {
  }

  lemma LastAdminIsTheOnlyOne(users: Users, name: Name)
    requires IsAdmin(users, name)
    ensures |Admins(users)| <= 1 <==> Admins(users) == {name}
  {
    assert name in Admins(users);
    if |Admins(users)| <= 1 {
      SubsetSize({name}, Admins(users));
      if Admins(users) != {name} {
        var other :| other in Admins(users) && other != name;
        SubsetSize({name, other}, Admins(users));
      }
    }
  }

  /** What each answer of `set_admin` says about the map before and after. */
  lemma SetAdminMeans(users: Users, name: Name, isAdmin: bool, requester: Name, tokensRevoked: bool)
    ensures var (after, result) := SetAdmin(users, name, isAdmin, requester, tokensRevoked);
            var demotion := IsAdmin(users, name) && !isAdmin && IsAdmin(users, requester);
            && (result == UserNotFound <==> name !in users)
            && (result == NotAuthorized <==> name in users && !IsAdmin(users, requester))
            && (result == LastAdmin <==> demotion && Admins(users) == {name})
            && (result == TokenStoreFailed <==> demotion && Admins(users) != {name} && !tokensRevoked)
            && (after != users ==> result == Ok && IsAdmin(users, requester))
            && (result == Ok ==>
                  && name in after && after[name].isAdmin == isAdmin
                  && after[name].password == users[name].password
                  && (users[name].isAdmin == isAdmin ==> after == users))
  {
    if IsAdmin(users, name) {
      LastAdminIsTheOnlyOne(users, name);
    }
  }

  /** What a privilege edit means to the application: the keys it names that have a default get the
      value it gives, every other privilege stays as it was, and nothing else of the record changes. */
  lemma EditMeans(users: Users, name: Name, request: Privileges)
    ensures var (after, result) := SetPrivileges(users, name, request);
            && (result == Refused <==> name !in users || users[name].isAdmin)
            && (result != Updated ==> after == users)
            && (result == Updated ==>
                  && after.Keys == users.Keys && !after[name].isAdmin
                  && after[name].password == users[name].password && after[name].stash == users[name].stash
                  && Effective(after[name]).Keys == Effective(users[name]).Keys
                  && forall k | k in Effective(users[name]) ::
                       Effective(after[name])[k]
                       == if k in request && k in DEFAULT_PRIVILEGES then request[k] else Effective(users[name])[k])
  {
    if SetPrivileges(users, name, request).1 == Updated {
      MergedTwice(DEFAULT_PRIVILEGES, Stored(users[name]), Known(DEFAULT_PRIVILEGES, request));
    }
  }

  lemma MergedTwice(d: Privileges, stored: Privileges, known: Privileges)
    requires known.Keys <= d.Keys
    ensures d + (d + stored + known) == d + stored + known
    ensures (d + stored + known).Keys == (d + stored).Keys
  {
  }

  predicate IsList(v: Value) {
    v.Names? || v.OtherList?
  }

  /** Every privilege is there with a value of the kind its readers expect. */
  predicate KindsOk(p: Privileges) {
    && (forall k | k in {CanUseAgent, CanUseBrowser, CanUseBash, CanUseDocuments, CanUseResearch, CanGenerateImages,
                         CanManageMemory, AllowedModelsRestricted, BlockAllModels} :: k in p && p[k].Flag?)
    && MaxMessagesPerDay in p && p[MaxMessagesPerDay].Count?
    && AllowedModels in p && IsList(p[AllowedModels])
  }

  predicate RecordKindsOk(user: User) {
    KindsOk(DEFAULT_PRIVILEGES + Stored(user)) && KindsOk(DEFAULT_PRIVILEGES + OrDefault(user.stash))
  }

  predicate AllKindsOk(users: Users) {
    forall n | n in users :: RecordKindsOk(users[n])
  }

  lemma ConstantKinds()
    ensures KindsOk(DEFAULT_PRIVILEGES) && KindsOk(ADMIN_PRIVILEGES)
  {
  }

  lemma MergedKinds(d: Privileges, p: Privileges, request: Privileges)
    requires KindsOk(d) && KindsOk(p) && !Malformed(d, request)
    ensures KindsOk(p + Known(d, request))
  {
    var known := Known(d, request);
    forall k | k in known ensures SameKind(d[k], known[k]) {
    }
  }

  lemma EditKeepsKinds(user: User, request: Privileges)
    requires !user.isAdmin && RecordKindsOk(user) && !Malformed(DEFAULT_PRIVILEGES, request)
    ensures RecordKindsOk(user.(privileges := Some(Effective(user) + Known(DEFAULT_PRIVILEGES, request))))
  {
    ConstantKinds();
    MergedKinds(DEFAULT_PRIVILEGES, Effective(user), request);
    MergedTwice(DEFAULT_PRIVILEGES, Stored(user), Known(DEFAULT_PRIVILEGES, request));
  }

  lemma NewRecordKinds(password: string, isAdmin: bool)
    ensures var map0 := if isAdmin then ADMIN_PRIVILEGES else DEFAULT_PRIVILEGES;
            RecordKindsOk(User(password, isAdmin, Some(map0), None))
  {
    AdminMapsCoverDefaults();
    ConstantKinds();
  }

  lemma SetAdminKeepsKinds(users: Users, name: Name, isAdmin: bool, requester: Name, tokensRevoked: bool)
    requires AllKindsOk(users) && SetAdminVerdict(users, name, isAdmin, requester, tokensRevoked).None?
    ensures AllKindsOk(SetAdmin(users, name, isAdmin, requester, tokensRevoked).0)
  {
    SetAdminWrites(users, name, isAdmin, requester, tokensRevoked);
    AdminMapsCoverDefaults();
    ConstantKinds();
    MergeOrDefault(users[name].privileges);
    assert RecordKindsOk(users[name]);
  }

  /** Whatever is asked of the manager, no user ever has a privilege of the wrong kind. */
  lemma OpKeepsKinds(users: Users, op: Op)
    requires AllKindsOk(users)
    ensures AllKindsOk(Apply(users, op))
  {
    match op
    case SetPrivilegesOp(n, q) =>
      if SetPrivileges(users, n, q).1 == Updated {
        EditKeepsKinds(users[n], q);
      }
    case SetAdminOp(n, a, r, t) =>
      if SetAdminVerdict(users, n, a, r, t).None? {
        SetAdminKeepsKinds(users, n, a, r, t);
      }
    case CreateOp(_, p, a) => NewRecordKinds(p, a);
    case _ =>
  }

  /** A promotion takes no ability away, and lifts every limit. */
  lemma PromotionOnlyGrants(user: User, k: Privilege)
    requires k in DEFAULT_PRIVILEGES && k != AllowedModelsRestricted && k != BlockAllModels
    ensures var p := Effective(Promoted(user));
            && k in p
            && (k in Effective(user) && Effective(user)[k] == Flag(true) && DEFAULT_PRIVILEGES[k].Flag?
                ==> p[k] == Flag(true))
            && p[MaxMessagesPerDay] == Count(0) && p[AllowedModels] == Names([])
            && p[AllowedModelsRestricted] == Flag(false) && p[BlockAllModels] == Flag(false)
  {
  }

  /** A new account: only under a free and usable name, with the rights and the password asked for. */
  lemma CreateMeans(users: Users, name: Name, password: string, isAdmin: bool)
    ensures var (after, ok) := Create(users, name, password, isAdmin);
            && (ok <==> name !in users && name != "" && name !in RESERVED_USERNAMES)
            && after.Keys == users.Keys + (if ok then {name} else {})
            && (ok ==>
                  && IsAdmin(after, name) == isAdmin && after[name].password == password
                  && Effective(after[name]) == (if isAdmin then ADMIN_PRIVILEGES else DEFAULT_PRIVILEGES)
                  && after[name].privileges == Some(Effective(after[name])))
  {
    AdminMapsCoverDefaults();
  }

  /** Deleting removes exactly one user, never the requester; renaming moves one record as it is. */
  lemma DeleteAndRenameMean(users: Users, name: Name, newName: Name, requester: Name, tokensRevoked: bool)
    ensures var (after, ok) := Delete(users, name, requester, tokensRevoked);
            && (ok <==> name in users && name != requester && IsAdmin(users, requester) && tokensRevoked)
            && after.Keys == users.Keys - (if ok then {name} else {})
            && (requester in users ==> requester in after)
    ensures var (after, ok) := Rename(users, name, newName, requester);
            && (ok ==> name in users && newName !in users && IsAdmin(users, requester)
                       && after.Keys == users.Keys - {name} + {newName} && after[newName] == users[name])
            && (!ok ==> after == users)
            && ((IsAdmin(users, requester) && name in users && name != "" && newName !in users
                 && newName != "" && newName !in RESERVED_USERNAMES) ==> ok)
  {
  }

  /** After a password is reset or changed, it is the only one that is accepted. */
  lemma NewPasswordIsAccepted(users: Users, name: Name, current: string, password: string, requester: Name, c: string)
    ensures var (after, ok) := ResetPassword(users, name, password, requester);
            && (ok <==> IsAdmin(users, requester) && name in users && !users[name].isAdmin)
            && (ok ==> (ChangePassword(after, name, c, "").1 <==> c == password)
                       && Effective(after[name]) == Effective(users[name]))
    ensures var (after, ok) := ChangePassword(users, name, current, password);
            && (ok <==> name in users && users[name].password == current)
            && (ok ==> (ChangePassword(after, name, c, "").1 <==> c == password)
                       && Effective(after[name]) == Effective(users[name]))
  {
  }
}
