/** User administration: the guards that keep at least one active administrator. */
module Users {
  import opened Wrappers

  datatype Role = Admin | Regular

  datatype User = User(id: nat, username: string, email: string, role: Role, isActive: bool)

  datatype UserUpdate = UserUpdate(email: Option<string>, role: Option<Role>, isActive: Option<bool>)

  datatype Error =
    | AlreadyInitialized | WeakPassword | UserExists | EmailExists | UserNotFound | SelfProtected | LastAdmin

  type Table = map<nat, User>

  predicate IsActiveAdmin(u: User) { u.role == Admin && u.isActive }

  function ActiveAdmins(t: Table): set<nat> {
    set id | id in t && IsActiveAdmin(t[id])
  }

  /** _count_active_admins. */
  function CountOthers(t: Table, excluded: nat): nat { |ActiveAdmins(t) - {excluded}| }

  predicate UsernameTaken(t: Table, username: string) { exists id :: id in t && t[id].username == username }

  predicate EmailTaken(t: Table, email: string) { exists id :: id in t && t[id].email == email }

  predicate EmailTakenByOther(t: Table, email: string, id: nat) {
    exists other :: other in t && other != id && t[other].email == email
  }

  // ---------------------------------------------------------------- the guards, as conditions on the request

  /** The update would make an administrator no longer an active one. */
  predicate DropsAdmin(target: User, p: UserUpdate) {
    target.role == Admin && (p.role == Some(Regular) || p.isActive == Some(false))
  }

  /** The operator would take administration or activity from themselves. */
  predicate HarmsSelf(operatorId: nat, target: User, p: UserUpdate) {
    target.id == operatorId
    && ((p.role == Some(Regular) && target.role == Admin) || (p.isActive == Some(false) && target.isActive))
  }

  function Applied(target: User, p: UserUpdate): User {
    target.(email := if p.email.Some? then p.email.value else target.email,
            role := if p.role.Some? then p.role.value else target.role,
            isActive := if p.isActive.Some? then p.isActive.value else target.isActive)
  }

  /** The first objection to an update, if there is one. */
  function UpdateObjection(t: Table, operatorId: nat, id: nat, p: UserUpdate): Option<Error> {
    if id !in t then Some(UserNotFound)
    else if HarmsSelf(operatorId, t[id], p) then Some(SelfProtected)
    else if DropsAdmin(t[id], p) && ActiveAdmins(t) <= {id} then Some(LastAdmin)
    else if p.email.Some? && p.email.value != t[id].email && EmailTakenByOther(t, p.email.value, id)
    then Some(EmailExists)
    else None
  }

  function DeleteObjection(t: Table, operatorId: nat, id: nat): Option<Error> {
    if id !in t then Some(UserNotFound)
    else if id == operatorId then Some(SelfProtected)
    else if t[id].role == Admin && ActiveAdmins(t) <= {id} then Some(LastAdmin)
    else None
  }

  function CreateObjection(t: Table, username: string, email: string): Option<Error> {
    if UsernameTaken(t, username) then Some(UserExists)
    else if EmailTaken(t, email) then Some(EmailExists)
    else None
  }

  // ---------------------------------------------------------------- the objections, on the fields

  /** There is no active administrator but this user. */
  ghost predicate NoOtherAdmin(t: Table, id: nat) {
    forall other :: other in t && other != id ==> t[other].role != Admin || !t[other].isActive
  }

  lemma NoOtherAdminIff(t: Table, id: nat)
    ensures ActiveAdmins(t) <= {id} <==> NoOtherAdmin(t, id)
  {
    if ActiveAdmins(t) <= {id} {
      forall other | other in t && other != id ensures t[other].role != Admin || !t[other].isActive {
        assert other in ActiveAdmins(t) ==> other in {id};
      }
    }
  }

  /** An update is refused for an unknown user; for taking administration or activity from oneself; for taking either
      from an administrator with no other active one; or for an address that another user has, in this order. Otherwise
      the user gets the address, the role and the activity that are given and keeps everything else. */
  lemma UpdateOnFields(t: Table, operatorId: nat, id: nat, p: UserUpdate)
    requires forall i :: i in t ==> t[i].id == i
    ensures UpdateObjection(t, operatorId, id, p) ==
            if id !in t then Some(UserNotFound)
            else
              var demotes := p.role == Some(Regular) && t[id].role == Admin;
              var deactivates := p.isActive == Some(false);
              if id == operatorId && (demotes || (deactivates && t[id].isActive)) then Some(SelfProtected)
              else if (demotes || (deactivates && t[id].role == Admin)) && NoOtherAdmin(t, id) then Some(LastAdmin)
              else if p.email.Some? && p.email != Some(t[id].email)
                      && exists other :: other in t && other != id && Some(t[other].email) == p.email
              then Some(EmailExists)
              else None
    ensures id in t ==>
              Applied(t[id], p) ==
              User(t[id].id, t[id].username,
                   match p.email case Some(email) => email case None => t[id].email,
                   match p.role case Some(role) => role case None => t[id].role,
                   match p.isActive case Some(active) => active case None => t[id].isActive)
  {
    NoOtherAdminIff(t, id);
    hide ActiveAdmins;
  }

  /** A deletion is refused for an unknown user, for oneself, and for an administrator with no other active one. */
  lemma DeleteOnFields(t: Table, operatorId: nat, id: nat)
    ensures DeleteObjection(t, operatorId, id) ==
            if id !in t then Some(UserNotFound)
            else if id == operatorId then Some(SelfProtected)
            else if t[id].role == Admin && NoOtherAdmin(t, id) then Some(LastAdmin)
            else None
  {
    NoOtherAdminIff(t, id);
  }

  /** A new user is refused exactly for a name or, with a free name, an address that some user has. */
  lemma CreateOnFields(t: Table, username: string, email: string)
    ensures CreateObjection(t, username, email) ==
            if exists id :: id in t && t[id].username == username then Some(UserExists)
            else if exists id :: id in t && t[id].email == email then Some(EmailExists)
            else None
  {}

  // ---------------------------------------------------------------- the operations

  lemma CountZero(t: Table, id: nat)
    ensures CountOthers(t, id) < 1 <==> ActiveAdmins(t) <= {id}
  {
    assert ActiveAdmins(t) <= {id} <==> ActiveAdmins(t) - {id} == {};
  }

  class UserTable {
    var users: Table
    var nextId: nat

    ghost predicate Valid()
      reads this
    {
      && (forall id :: id in users ==> users[id].id == id && id < nextId)
    }

    constructor ()
      ensures Valid() && users == map[]
    {
      users, nextId := map[], 0;
    }

    method Add(username: string, email: string, role: Role) returns (id: nat)
      requires Valid()
      modifies this
      ensures Valid() && id !in old(users)
      ensures users == old(users)[id := User(id, username, email, role, true)]
    {
      id := nextId;
      users, nextId := users[id := User(id, username, email, role, true)], nextId + 1;
    }

    /** init_first_admin: only while there are no users at all. */
    method InitFirstAdmin(username: string, email: string, strong: bool) returns (r: Result<nat, Error>)
      requires Valid()
      modifies this
      ensures Valid()
      ensures r.Success? <==> old(users) == map[] && strong
      ensures r.Success? ==> users == map[r.value := User(r.value, username, email, Admin, true)]
      ensures r.Failure? ==> users == old(users)
      ensures r.Failure? ==> r.error == if old(users) != map[] then AlreadyInitialized else WeakPassword
    {
      if |users| > 0 {
        return Failure(AlreadyInitialized);
      }
      if !strong {
        return Failure(WeakPassword);
      }
      var id := Add(username, email, Admin);
      return Success(id);
    }

    method CreateUser(username: string, email: string, role: Role) returns (r: Result<nat, Error>)
      requires Valid()
      modifies this
      ensures Valid()
      ensures var objection := CreateObjection(old(users), username, email);
              if objection.Some? then r == Failure(objection.value) && users == old(users)
              else r.Success? && r.value !in old(users)
                   && users == old(users)[r.value := User(r.value, username, email, role, true)]
                   && users == Next(old(users), Create(r.value, username, email, role))
    {
      if exists id :: id in users && users[id].username == username {
        return Failure(UserExists);
      }
      if exists id :: id in users && users[id].email == email {
        return Failure(EmailExists);
      }
      var id := Add(username, email, role);
      return Success(id);
    }

    method AdminUpdateUser(operatorId: nat, id: nat, p: UserUpdate) returns (r: Result<User, Error>)
      requires Valid()
      modifies this
      ensures Valid()
      ensures var objection := UpdateObjection(old(users), operatorId, id, p);
              if objection.Some? then r == Failure(objection.value) && users == old(users)
              else r.Success? && id in old(users) && r.value == Applied(old(users)[id], p)
                   && users == old(users)[id := r.value]
      ensures users == Next(old(users), Update(operatorId, id, p))
    {
      hide ActiveAdmins, CountOthers, EmailTakenByOther;
      if id !in users {
        return Failure(UserNotFound);
      }
      var target := users[id];
      var isSelf := target.id == operatorId;
      if p.role.Some? && p.role.value != target.role {
        if isSelf && p.role.value != Admin {
          return Failure(SelfProtected);
        }
      }
      if p.isActive.Some? && p.isActive.value == false && target.isActive {
        if isSelf {
          return Failure(SelfProtected);
        }
      }
      var willLoseAdmin :=
        ((p.role.Some? && p.role.value != Admin) || p.isActive == Some(false)) && target.role == Admin;
      if willLoseAdmin {
        CountZero(users, target.id);
        var others := CountOthers(users, target.id);
        if others < 1 {
          return Failure(LastAdmin);
        }
      }
      if p.email.Some? && p.email.value != target.email {
        if EmailTakenByOther(users, p.email.value, target.id) {
          return Failure(EmailExists);
        }
        target := target.(email := p.email.value);
      }
      if p.role.Some? {
        target := target.(role := p.role.value);
      }
      if p.isActive.Some? {
        target := target.(isActive := p.isActive.value);
      }
      users := users[id := target];
      return Success(target);
    }

    method AdminDeleteUser(operatorId: nat, id: nat) returns (r: Result<(), Error>)
      requires Valid()
      modifies this
      ensures Valid()
      ensures var objection := DeleteObjection(old(users), operatorId, id);
              if objection.Some? then r == Failure(objection.value) && users == old(users)
              else r.Success? && users == old(users) - {id}
      ensures users == Next(old(users), Delete(operatorId, id))
    {
      if id !in users {
        return Failure(UserNotFound);
      }
      var target := users[id];
      if target.id == operatorId {
        return Failure(SelfProtected);
      }
      if target.role == Admin {
        CountZero(users, target.id);
        var others := CountOthers(users, target.id);
        if others < 1 {
          return Failure(LastAdmin);
        }
      }
      users := users - {id};
      return Success(());
    }
  }

  // ---------------------------------------------------------------- runs

  /** One serialised call; the id of a created user is the database's choice. */
  datatype Call =
    | Create(id: nat, username: string, email: string, role: Role)
    | Update(operatorId: nat, id: nat, payload: UserUpdate)
    | Delete(operatorId: nat, id: nat)

  predicate Possible(t: Table, c: Call) { c.Create? ==> c.id !in t }

  function Next(t: Table, c: Call): Table {
    match c
    case Create(id, username, email, role) =>
      if CreateObjection(t, username, email).Some? then t else t[id := User(id, username, email, role, true)]
    case Update(operatorId, id, p) =>
      if UpdateObjection(t, operatorId, id, p).Some? then t else t[id := Applied(t[id], p)]
    case Delete(operatorId, id) =>
      if DeleteObjection(t, operatorId, id).Some? then t else t - {id}
  }

  predicate IsRun(t: Table, calls: seq<Call>)
    decreases |calls|
  {
    calls == [] || (Possible(t, calls[0]) && IsRun(Next(t, calls[0]), calls[1..]))
  }

  function After(t: Table, calls: seq<Call>): Table
    requires IsRun(t, calls)
    decreases |calls|
  {
    if calls == [] then t else After(Next(t, calls[0]), calls[1..])
  }

  ghost predicate Unique(t: Table) {
    && (forall id :: id in t ==> t[id].id == id)
    && (forall i, j :: i in t && j in t && t[i].username == t[j].username ==> i == j)
    && (forall i, j :: i in t && j in t && t[i].email == t[j].email ==> i == j)
  }

  ghost predicate Safe(t: Table) { ActiveAdmins(t) != {} && Unique(t) }

  lemma CreateKeepsSafe(t: Table, id: nat, username: string, email: string, role: Role)
    requires Safe(t) && id !in t
    ensures Safe(Next(t, Create(id, username, email, role)))
  {
    var admin :| admin in ActiveAdmins(t);
    assert admin in ActiveAdmins(Next(t, Create(id, username, email, role)));
  }

  lemma UpdateKeepsUnique(t: Table, operatorId: nat, id: nat, p: UserUpdate)
    requires Unique(t)
    ensures Unique(Next(t, Update(operatorId, id, p)))
  {
    hide ActiveAdmins;
  }

  lemma UpdateKeepsSafe(t: Table, operatorId: nat, id: nat, p: UserUpdate)
    requires Safe(t)
    ensures Safe(Next(t, Update(operatorId, id, p)))
  {
    var t' := Next(t, Update(operatorId, id, p));
    UpdateKeepsUnique(t, operatorId, id, p);
    if UpdateObjection(t, operatorId, id, p).None? {
      hide EmailTakenByOther;
      if DropsAdmin(t[id], p) {
        var admin :| admin in ActiveAdmins(t) && admin != id;
        assert admin in ActiveAdmins(t');
      } else {
        var admin :| admin in ActiveAdmins(t);
        assert admin in ActiveAdmins(t');
      }
    }
  }

  lemma DeleteKeepsSafe(t: Table, operatorId: nat, id: nat)
    requires Safe(t)
    ensures Safe(Next(t, Delete(operatorId, id)))
  {
    var t' := Next(t, Delete(operatorId, id));
    if DeleteObjection(t, operatorId, id).None? {
      var admin :| admin in ActiveAdmins(t) && (t[id].role == Admin ==> admin != id);
      assert admin in ActiveAdmins(t');
    }
  }

  lemma {:induction false} RunKeepsSafe(t: Table, calls: seq<Call>)
    requires Safe(t) && IsRun(t, calls)
    ensures Safe(After(t, calls))
    decreases |calls|
  {
    hide Safe, Next;
    if calls != [] {
      match calls[0] {
        case Create(id, username, email, role) => CreateKeepsSafe(t, id, username, email, role);
        case Update(operatorId, id, p) => UpdateKeepsSafe(t, operatorId, id, p);
        case Delete(operatorId, id) => DeleteKeepsSafe(t, operatorId, id);
      }
      RunKeepsSafe(Next(t, calls[0]), calls[1..]);
    }
  }

  /** From the first administrator on, any calls by anyone leave at least one active administrator, and user names
      and addresses stay unique. */
  lemma AlwaysAnAdmin(id: nat, username: string, email: string, calls: seq<Call>)
    requires IsRun(map[id := User(id, username, email, Admin, true)], calls)
    ensures Safe(After(map[id := User(id, username, email, Admin, true)], calls))
  {
    var t := map[id := User(id, username, email, Admin, true)];
    assert id in ActiveAdmins(t);
    RunKeepsSafe(t, calls);
  }

  /** The last-administrator guard refuses exactly what would leave no active administrator. */
  lemma LastAdminIff(t: Table, operatorId: nat, id: nat, p: UserUpdate)
    requires Safe(t) && id in t
    ensures !HarmsSelf(operatorId, t[id], p) ==>
              (UpdateObjection(t, operatorId, id, p) == Some(LastAdmin) <==>
               ActiveAdmins(t[id := Applied(t[id], p)]) == {})
    ensures id != operatorId ==>
              (DeleteObjection(t, operatorId, id) == Some(LastAdmin) <==> ActiveAdmins(t - {id}) == {})
  {
    var t' := t[id := Applied(t[id], p)];
    forall i | i in ActiveAdmins(t) && i != id ensures i in ActiveAdmins(t') && i in ActiveAdmins(t - {id}) {}
    assert ActiveAdmins(t') <= ActiveAdmins(t) + {id} && ActiveAdmins(t - {id}) <= ActiveAdmins(t);
    assert id in ActiveAdmins(t') <==> IsActiveAdmin(Applied(t[id], p));
  }

  /** When the operator is an active administrator, as the route demands, the last-administrator branch is dead:
      it is reached only by acting on oneself, and that is refused before. */
  lemma LastAdminUnreachable(t: Table, operatorId: nat, id: nat, p: UserUpdate)
    requires forall i :: i in t ==> t[i].id == i
    requires operatorId in ActiveAdmins(t)
    ensures UpdateObjection(t, operatorId, id, p) != Some(LastAdmin)
    ensures DeleteObjection(t, operatorId, id) != Some(LastAdmin)
  {
    if id in t && ActiveAdmins(t) <= {id} {
      assert operatorId in {id};
      assert IsActiveAdmin(t[id]);
    }
  }

  /** It is not dead code for other operators: whoever is not an active administrator can be stopped by it,
      in some table. */
  lemma LastAdminReachable(operatorId: nat, id: nat, username: string, email: string)
    requires operatorId != id
    ensures var t := map[id := User(id, username, email, Admin, true)];
            Safe(t) && DeleteObjection(t, operatorId, id) == Some(LastAdmin)
            && UpdateObjection(t, operatorId, id, UserUpdate(None, Some(Regular), None)) == Some(LastAdmin)
  {
    var t := map[id := User(id, username, email, Admin, true)];
    assert ActiveAdmins(t) == {id};
  }
}
