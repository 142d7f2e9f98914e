/** The user table, the role table and the user-role assignments, with
    `UserCommandService`: `create`, `update`, `trashed`, `restore` and
    `delete_permanent`. Registration in `AuthService` enrols users through the
    same steps as `create` (`Enrol` below). */
module Users {
  import opened Common
  import opened Emails

  /** The name of the role every new user is given. */
  const ROLE_ADMIN: string := "ROLE_ADMIN"

  /** A user row; `trashed` stands for a set `deleted_at`. */
  datatype Account = Account(firstname: string, lastname: string, email: string, password: string, trashed: bool)

  /** A row of the user-role table. */
  datatype Grant = Grant(userId: int, roleId: int)

  /** Everything the user services can observe: users by id, role ids by name, assignments. */
  datatype Directory = Directory(users: map<int, Account>, roles: map<string, int>, grants: set<Grant>)

  datatype Outcome = Outcome(after: Directory, result: Result<int>)

  /** `find_by_email` among the ids `from` up to `bound`: the lowest id whose
      email is exactly `email`. */
  function OwnerFrom(users: map<int, Account>, email: string, from: int, bound: int): (r: Option<int>)
    decreases bound - from
    ensures r.Some? ==> from <= r.value < bound && r.value in users && users[r.value].email == email
    ensures r.Some? ==> forall id :: from <= id < r.value && id in users ==> users[id].email != email
    ensures r.None? ==> forall id :: from <= id < bound && id in users ==> users[id].email != email
  {
    if from >= bound then None
    else if from in users && users[from].email == email then Some(from)
    else OwnerFrom(users, email, from + 1, bound)
  }

  /** `find_by_email` on a table whose ids are all below `bound`. */
  function Owner(users: map<int, Account>, bound: int, email: string): Option<int> {
    OwnerFrom(users, email, 1, bound)
  }

  /** True when some user's email is exactly `email`. */
  predicate Taken(users: map<int, Account>, email: string) {
    exists id :: id in users && users[id].email == email
  }

  /** Every id was handed out by a serial counter that starts at 1 and now stands at `bound`. */
  predicate IdsBelow(users: map<int, Account>, bound: int) {
    1 <= bound && forall id :: id in users ==> 1 <= id < bound
  }

  /** The lookup finds a user exactly when the email is taken. */
  lemma OwnerFindsTaken(users: map<int, Account>, bound: int, email: string)
    requires IdsBelow(users, bound)
    ensures Owner(users, bound, email).Some? <==> Taken(users, email)
  {
  }

  /** Adding a user under a fresh id at the top does not change what an
      earlier lookup found, and makes a free email find that user. */
  lemma {:induction false} OwnerAfterAdd(users: map<int, Account>, email: string, from: int, bound: int, a: Account)
    requires bound !in users && from <= bound
    ensures OwnerFrom(users[bound := a], email, from, bound + 1) ==
            if OwnerFrom(users, email, from, bound).Some? then OwnerFrom(users, email, from, bound)
            else if a.email == email then Some(bound) else None
    decreases bound - from
  {
    if from < bound {
      OwnerAfterAdd(users, email, from + 1, bound, a);
    }
  }

  class UserStore {
    var users: map<int, Account>
    var roles: map<string, int>
    var grants: set<Grant>
    var nextId: int                         // next serial user id

    ghost predicate Valid()
      reads this`users, this`nextId
    {
      IdsBelow(users, nextId)
    }

    ghost function View(): Directory
      reads this
    {
      Directory(users, roles, grants)
    }

    constructor (roles: map<string, int>)
      ensures Valid() && nextId == 1
      ensures View() == Directory(map[], roles, {})
    {
      this.users := map[];
      this.roles := roles;
      this.grants := {};
      this.nextId := 1;
    }

    /** `user_query.find_by_email` */
    method FindByEmail(email: string, fail: bool) returns (r: Option<Option<int>>)
      ensures r == if fail then None else Some(Owner(users, nextId, email))
    {
      if fail {
        r := None;
      } else {
        r := Some(Owner(users, nextId, email));
      }
    }

    /** `user_query.find_by_id` */
    method FindById(id: int, fail: bool) returns (a: Option<Account>)
      ensures a.Some? <==> !fail && id in users
      ensures a.Some? ==> a.value == users[id]
    {
      if !fail && id in users {
        a := Some(users[id]);
      } else {
        a := None;
      }
    }

    /** `role.find_by_name`: an error, or the role id if the role exists. */
    method FindRole(name: string, fail: bool) returns (r: Option<Option<int>>)
      ensures r == if fail then None else Some(if name in roles then Some(roles[name]) else None)
    {
      if fail {
        r := None;
      } else if name in roles {
        r := Some(Some(roles[name]));
      } else {
        r := Some(None);
      }
    }

    /** `user_command.create` */
    method CreateUser(a: Account, fail: bool) returns (id: Option<int>)
      requires Valid()
      modifies this`users, this`nextId
      ensures Valid()
      ensures id == if fail then None else Some(old(nextId))
      ensures users == if fail then old(users) else old(users)[old(nextId) := a]
      ensures nextId == if fail then old(nextId) else old(nextId) + 1
    {
      if fail {
        id := None;
      } else {
        id := Some(nextId);
        users := users[nextId := a];
        nextId := nextId + 1;
      }
    }

    /** `user_role.assign_role_to_user` */
    method AssignRole(userId: int, roleId: int, fail: bool) returns (ok: bool)
      modifies this`grants
      ensures ok == !fail
      ensures grants == if fail then old(grants) else old(grants) + {Grant(userId, roleId)}
    {
      ok := !fail;
      if ok {
        grants := grants + {Grant(userId, roleId)};
      }
    }

    /** `user_command.update` on an existing user: names, and the email when one is given. */
    method UpdateUser(id: int, firstname: string, lastname: string, email: Option<string>, fail: bool)
      returns (ok: bool)
      requires id in users && Valid()
      modifies this`users
      ensures Valid()
      ensures ok == !fail
      ensures users == if fail then old(users) else old(users)[id := Edited(old(users)[id], firstname, lastname, email)]
    {
      ok := !fail;
      if ok {
        users := users[id := Edited(users[id], firstname, lastname, email)];
      }
    }

    /** `user_command.trashed` (`trash` true) and `user_command.restore` (`trash` false). */
    method SetTrashed(id: int, trash: bool, fail: bool) returns (ok: bool)
      requires id in users && Valid()
      modifies this`users
      ensures Valid()
      ensures ok == !fail
      ensures users == if fail then old(users) else old(users)[id := old(users)[id].(trashed := trash)]
    {
      ok := !fail;
      if ok {
        users := users[id := users[id].(trashed := trash)];
      }
    }

    /** `user_command.delete_permanent` */
    method DeleteUser(id: int, fail: bool) returns (ok: bool)
      requires Valid()
      modifies this`users
      ensures Valid()
      ensures ok == !fail
      ensures users == if fail then old(users) else old(users) - {id}
    {
      ok := !fail;
      if ok {
        users := users - {id};
      }
    }
  }

  /** The user row after an update request: the request's names, and its email if it has one. */
  function Edited(a: Account, firstname: string, lastname: string, email: Option<string>): (r: Account)
    ensures r.firstname == firstname && r.lastname == lastname
    ensures r.email == (if email.Some? then email.value else a.email)
    ensures r.password == a.password && r.trashed == a.trashed
  {
    a.(firstname := firstname, lastname := lastname, email := if email.Some? then email.value else a.email)
  }

  // ---- enrolment: `create`, and `register_user` in the auth service ----------

  /** The repository calls and the password hashing of an enrolment, in program order. */
  datatype EnrolCall = FindByEmail | HashPassword | FindRole | CreateUser | AssignRole

  /** What enrolling a user leaves and returns: the email must be free, the
      password is hashed (to `hashed`), the default role must exist, then the
      user is created under `nextId` and given that role. `lookupError` and
      `createError` are what the caller reports when the email lookup or the
      creation errors. */
  function EnrolOutcome(d: Directory, nextId: int, firstname: string, lastname: string, email: string,
                        hashed: string, lookupError: Error, createError: Error, fails: set<EnrolCall>): Outcome
  {
    if FindByEmail in fails then Outcome(d, Err(lookupError))
    else if Owner(d.users, nextId, email).Some? then Outcome(d, Err(EmailAlreadyRegistered))
    else if HashPassword in fails then Outcome(d, Err(HashFailed))
    else if FindRole in fails then Outcome(d, Err(RepoError))
    else if ROLE_ADMIN !in d.roles then Outcome(d, Err(DefaultRoleNotFound))
    else if CreateUser in fails then Outcome(d, Err(createError))
    else
      var created := d.(users := d.users[nextId := Account(firstname, lastname, email, hashed, false)]);
      if AssignRole in fails then Outcome(created, Err(RepoError))
      else Outcome(created.(grants := d.grants + {Grant(nextId, d.roles[ROLE_ADMIN])}), Ok(nextId))
  }

  method Enrol(store: UserStore, firstname: string, lastname: string, email: string, hashed: string,
               lookupError: Error, createError: Error, fails: set<EnrolCall>)
    returns (r: Result<int>)
    requires store.Valid()
    modifies store
    ensures store.Valid()
    ensures Outcome(store.View(), r) ==
            EnrolOutcome(old(store.View()), old(store.nextId), firstname, lastname, email, hashed,
                         lookupError, createError, fails)
  {
    var existing := store.FindByEmail(email, FindByEmail in fails);
    if existing.None? {
      return Err(lookupError);
    }
    if existing.value.Some? {
      return Err(EmailAlreadyRegistered);
    }
    if HashPassword in fails {
      return Err(HashFailed);
    }
    var role := store.FindRole(ROLE_ADMIN, FindRole in fails);
    if role.None? {
      return Err(RepoError);
    }
    if role.value.None? {
      return Err(DefaultRoleNotFound);
    }
    var id := store.CreateUser(Account(firstname, lastname, email, hashed, false), CreateUser in fails);
    if id.None? {
      return Err(createError);
    }
    var granted := store.AssignRole(id.value, role.value.value, AssignRole in fails);
    if !granted {
      return Err(RepoError);
    }
    r := Ok(id.value);
  }

  /** An email some user already has is refused, and no user is created. */
  lemma EnrolRejectsTakenEmail(d: Directory, nextId: int, firstname: string, lastname: string, email: string,
                               hashed: string, lookupError: Error, createError: Error, fails: set<EnrolCall>)
    requires IdsBelow(d.users, nextId) && Taken(d.users, email) && FindByEmail !in fails
    ensures EnrolOutcome(d, nextId, firstname, lastname, email, hashed, lookupError, createError, fails) ==
            Outcome(d, Err(EmailAlreadyRegistered))
  {
    OwnerFindsTaken(d.users, nextId, email);
  }

  /** The default role is looked up before the user is created: without it
      nothing is written. */
  lemma EnrolNeedsDefaultRole(d: Directory, nextId: int, firstname: string, lastname: string, email: string,
                              hashed: string, lookupError: Error, createError: Error, fails: set<EnrolCall>)
    requires ROLE_ADMIN !in d.roles
    ensures EnrolOutcome(d, nextId, firstname, lastname, email, hashed, lookupError, createError, fails).after == d
  {
  }

  /** Enrolment succeeds exactly when the email is free, the default role
      exists and every call went through. The new user, under `nextId`, holds
      the hashed password and the default role, nothing else changes, and the
      email now finds exactly that user. */
  lemma EnrolSucceeds(d: Directory, nextId: int, firstname: string, lastname: string, email: string,
                      hashed: string, lookupError: Error, createError: Error, fails: set<EnrolCall>)
    requires IdsBelow(d.users, nextId)
    ensures var o := EnrolOutcome(d, nextId, firstname, lastname, email, hashed, lookupError, createError, fails);
            o.result.Ok? <==>
              !Taken(d.users, email) && ROLE_ADMIN in d.roles &&
              FindByEmail !in fails && HashPassword !in fails && FindRole !in fails &&
              CreateUser !in fails && AssignRole !in fails
    ensures var o := EnrolOutcome(d, nextId, firstname, lastname, email, hashed, lookupError, createError, fails);
            o.result.Ok? ==>
              o.result.value == nextId && nextId !in d.users &&
              o.after.users == d.users[nextId := Account(firstname, lastname, email, hashed, false)] &&
              o.after.grants == d.grants + {Grant(nextId, d.roles[ROLE_ADMIN])} &&
              o.after.roles == d.roles &&
              Owner(o.after.users, nextId + 1, email) == Some(nextId)
  {
    OwnerFindsTaken(d.users, nextId, email);
    var o := EnrolOutcome(d, nextId, firstname, lastname, email, hashed, lookupError, createError, fails);
    if o.result.Ok? {
      OwnerAfterAdd(d.users, email, 1, nextId, Account(firstname, lastname, email, hashed, false));
    }
  }

  /** A failed role assignment is not undone: the user stays created, without a role. */
  lemma EnrolKeepsUserWithoutRole(d: Directory, nextId: int, firstname: string, lastname: string, email: string,
                                  hashed: string, lookupError: Error, createError: Error, fails: set<EnrolCall>)
    ensures var o := EnrolOutcome(d, nextId, firstname, lastname, email, hashed, lookupError, createError, fails);
            o.result == Err(RepoError) && o.after != d ==>
              AssignRole in fails && o.after.grants == d.grants &&
              o.after.users == d.users[nextId := Account(firstname, lastname, email, hashed, false)]
  {
  }

  // ---- UserCommandService -----------------------------------------------------

  /** `create`: a valid request is enrolled; the email is checked exactly as given. */
  function CreateOutcome(d: Directory, nextId: int, valid: bool, firstname: string, lastname: string,
                         email: string, hashed: string, fails: set<EnrolCall>): Outcome
  {
    if !valid then Outcome(d, Err(ValidationFailed))
    else EnrolOutcome(d, nextId, firstname, lastname, email, hashed, EmailCheckFailed, WriteFailed(User), fails)
  }

  method Create(store: UserStore, valid: bool, firstname: string, lastname: string, email: string,
                hashed: string, fails: set<EnrolCall>)
    returns (r: Result<int>)
    requires store.Valid()
    modifies store
    ensures store.Valid()
    ensures Outcome(store.View(), r) ==
            CreateOutcome(old(store.View()), old(store.nextId), valid, firstname, lastname, email, hashed, fails)
  {
    if !valid {
      return Err(ValidationFailed);
    }
    r := Enrol(store, firstname, lastname, email, hashed, EmailCheckFailed, WriteFailed(User), fails);
  }

  /** The repository calls of `update`, in program order. */
  datatype UpdateCall = FindUser | FindEmail | UpdateUser

  /** `update`: the user must exist; a new email whose normalised form differs
      from the stored one's is looked up in normalised form and must be free;
      then the row takes the request's names and its email as given. */
  function UpdateOutcome(d: Directory, nextId: int, valid: bool, userId: Option<int>, firstname: string,
                         lastname: string, email: Option<string>, fails: set<UpdateCall>): Outcome
  {
    if !valid then Outcome(d, Err(ValidationFailed))
    else if userId.None? then Outcome(d, Err(IdRequired))
    else
      var id := userId.value;
      if FindUser in fails || id !in d.users then Outcome(d, Err(NotFound(User)))
      else if email.Some? && Normalize(email.value) != Normalize(d.users[id].email) && FindEmail in fails then
        Outcome(d, Err(EmailCheckFailed))
      else if email.Some? && Normalize(email.value) != Normalize(d.users[id].email) &&
              Owner(d.users, nextId, Normalize(email.value)).Some? then
        Outcome(d, Err(EmailInUse))
      else if UpdateUser in fails then Outcome(d, Err(WriteFailed(User)))
      else Outcome(d.(users := d.users[id := Edited(d.users[id], firstname, lastname, email)]), Ok(id))
  }

  method Update(store: UserStore, valid: bool, userId: Option<int>, firstname: string, lastname: string,
                email: Option<string>, fails: set<UpdateCall>)
    returns (r: Result<int>)
    requires store.Valid()
    modifies store
    ensures store.Valid()
    ensures Outcome(store.View(), r) ==
            UpdateOutcome(old(store.View()), old(store.nextId), valid, userId, firstname, lastname, email, fails)
  {
    if !valid {
      return Err(ValidationFailed);
    }
    if userId.None? {
      return Err(IdRequired);
    }
    var id := userId.value;
    var user := store.FindById(id, FindUser in fails);
    if user.None? {
      return Err(NotFound(User));
    }
    if email.Some? {
      var normalized := Normalize(email.value);
      if normalized != Normalize(user.value.email) {
        var existing := store.FindByEmail(normalized, FindEmail in fails);
        if existing.None? {
          return Err(EmailCheckFailed);
        }
        if existing.value.Some? {
          return Err(EmailInUse);
        }
      }
    }
    var updated := store.UpdateUser(id, firstname, lastname, email, UpdateUser in fails);
    if !updated {
      return Err(WriteFailed(User));
    }
    r := Ok(id);
  }

  /** An email equal to the stored one after trimming and lowering is not
      looked up: whether that lookup would fail makes no difference. */
  lemma UpdateSkipsLookupForSameEmail(d: Directory, nextId: int, valid: bool, userId: Option<int>,
                                      firstname: string, lastname: string, email: string, fails: set<UpdateCall>)
    requires userId.Some? && userId.value in d.users
    requires Normalize(email) == Normalize(d.users[userId.value].email)
    ensures UpdateOutcome(d, nextId, valid, userId, firstname, lastname, Some(email), fails) ==
            UpdateOutcome(d, nextId, valid, userId, firstname, lastname, Some(email), fails - {FindEmail})
  {
  }

  /** Changing only the case or the surrounding white space of the stored
      email never counts as taking another user's email. */
  lemma UpdateAcceptsOwnEmailRespelled(d: Directory, nextId: int, userId: int, firstname: string, lastname: string,
                                       before: string, after: string)
    requires userId in d.users && AllWhiteSpace(before) && AllWhiteSpace(after)
    ensures var email := before + Lower(d.users[userId].email) + after;
            UpdateOutcome(d, nextId, true, Some(userId), firstname, lastname, Some(email), {}) ==
            Outcome(d.(users := d.users[userId := Edited(d.users[userId], firstname, lastname, Some(email))]),
                    Ok(userId))
  {
    var stored := d.users[userId].email;
    NormalizeIgnoresPadding(before, Lower(stored), after);
    NormalizeIgnoresCase(stored);
  }

  /** A new email whose normalised form another user holds exactly is refused
      and nothing is written. */
  lemma UpdateRejectsTakenEmail(d: Directory, nextId: int, userId: int, firstname: string, lastname: string,
                                email: string, other: int, fails: set<UpdateCall>)
    requires IdsBelow(d.users, nextId) && FindUser !in fails && FindEmail !in fails
    requires userId in d.users && other in d.users && d.users[other].email == Normalize(email)
    requires Normalize(email) != Normalize(d.users[userId].email)
    ensures UpdateOutcome(d, nextId, true, Some(userId), firstname, lastname, Some(email), fails) ==
            Outcome(d, Err(EmailInUse))
  {
    OwnerFindsTaken(d.users, nextId, Normalize(email));
  }

  /** The lookup never finds the user being updated: when its own stored email
      matches the normalised new one, the two normalise alike and the lookup is
      skipped. */
  lemma UpdateNeverConflictsWithSelf(d: Directory, nextId: int, userId: int, firstname: string, lastname: string,
                                     email: string)
    requires userId in d.users && d.users[userId].email == Normalize(email)
    ensures UpdateOutcome(d, nextId, true, Some(userId), firstname, lastname, Some(email), {}).result == Ok(userId)
  {
    NormalizeIdempotent(email);
  }

  /** The uniqueness check looks up the normalised new email, while the row
      keeps the email as given: an email another user holds exactly, spelt
      other than in normalised form, is let through, and afterwards two users
      hold the same email. */
  lemma UpdateCanDuplicateEmail(d: Directory, nextId: int, userId: int, firstname: string, lastname: string,
                                other: int)
    requires IdsBelow(d.users, nextId) && userId in d.users && other in d.users && other != userId
    requires !Taken(d.users, Normalize(d.users[other].email))
    requires Normalize(d.users[other].email) != Normalize(d.users[userId].email)
    ensures var o := UpdateOutcome(d, nextId, true, Some(userId), firstname, lastname,
                                   Some(d.users[other].email), {});
            o.result == Ok(userId) && o.after.users[userId].email == o.after.users[other].email
  {
    OwnerFindsTaken(d.users, nextId, Normalize(d.users[other].email));
  }

  /** The repository calls of `trashed`, `restore` and `delete_permanent`. */
  datatype RowCall = FindRow | WriteRow

  /** `trashed` (`trash` true) and `restore` (`trash` false): the user must exist. */
  function TrashOutcome(d: Directory, id: int, trash: bool, fails: set<RowCall>): Outcome {
    if FindRow in fails || id !in d.users then Outcome(d, Err(NotFound(User)))
    else if WriteRow in fails then Outcome(d, Err(WriteFailed(User)))
    else Outcome(d.(users := d.users[id := d.users[id].(trashed := trash)]), Ok(id))
  }

  /** `delete_permanent`: the user must exist; the row is removed. */
  function DeleteOutcome(d: Directory, id: int, fails: set<RowCall>): Outcome {
    if FindRow in fails || id !in d.users then Outcome(d, Err(NotFound(User)))
    else if WriteRow in fails then Outcome(d, Err(WriteFailed(User)))
    else Outcome(d.(users := d.users - {id}), Ok(id))
  }

  method Trash(store: UserStore, id: int, fails: set<RowCall>) returns (r: Result<int>)
    requires store.Valid()
    modifies store
    ensures store.Valid()
    ensures Outcome(store.View(), r) == TrashOutcome(old(store.View()), id, true, fails)
  {
    r := TrashOrRestore(store, id, true, fails);
  }

  method Restore(store: UserStore, id: int, fails: set<RowCall>) returns (r: Result<int>)
    requires store.Valid()
    modifies store
    ensures store.Valid()
    ensures Outcome(store.View(), r) == TrashOutcome(old(store.View()), id, false, fails)
  {
    r := TrashOrRestore(store, id, false, fails);
  }

  /** The lookup and the write `trashed` and `restore` share. */
  method TrashOrRestore(store: UserStore, id: int, trash: bool, fails: set<RowCall>) returns (r: Result<int>)
    requires store.Valid()
    modifies store
    ensures store.Valid()
    ensures Outcome(store.View(), r) == TrashOutcome(old(store.View()), id, trash, fails)
  {
    var user := store.FindById(id, FindRow in fails);
    if user.None? {
      return Err(NotFound(User));
    }
    var written := store.SetTrashed(id, trash, WriteRow in fails);
    if !written {
      return Err(WriteFailed(User));
    }
    r := Ok(id);
  }

  method DeletePermanent(store: UserStore, id: int, fails: set<RowCall>) returns (r: Result<int>)
    requires store.Valid()
    modifies store
    ensures store.Valid()
    ensures Outcome(store.View(), r) == DeleteOutcome(old(store.View()), id, fails)
  {
    var user := store.FindById(id, FindRow in fails);
    if user.None? {
      return Err(NotFound(User));
    }
    var deleted := store.DeleteUser(id, WriteRow in fails);
    if !deleted {
      return Err(WriteFailed(User));
    }
    r := Ok(id);
  }

  /** `trashed`, `restore` and `delete_permanent` change something only for an
      existing user, and then only that user's row. */
  lemma RowOperationsNeedUser(d: Directory, id: int, trash: bool, fails: set<RowCall>)
    ensures var o := TrashOutcome(d, id, trash, fails);
            (o.result.Ok? <==> id in d.users && FindRow !in fails && WriteRow !in fails) &&
            (id !in d.users ==> o == Outcome(d, Err(NotFound(User)))) &&
            o.after.users.Keys == d.users.Keys &&
            (forall k :: k in d.users && k != id ==> o.after.users[k] == d.users[k])
    ensures var o := DeleteOutcome(d, id, fails);
            (o.result.Ok? <==> id in d.users && FindRow !in fails && WriteRow !in fails) &&
            (id !in d.users ==> o == Outcome(d, Err(NotFound(User)))) &&
            o.after.users.Keys == d.users.Keys - (if o.result.Ok? then {id} else {}) &&
            (forall k :: k in o.after.users ==> o.after.users[k] == d.users[k])
  {
  }

  /** Restoring a trashed user gives back the row as it was before it was trashed. */
  lemma RestoreUndoesTrash(d: Directory, id: int)
    requires id in d.users && !d.users[id].trashed
    ensures var trashed := TrashOutcome(d, id, true, {});
            trashed.result == Ok(id) && trashed.after.users[id].trashed &&
            TrashOutcome(trashed.after, id, false, {}) == Outcome(d, Ok(id))
  {
    var t := TrashOutcome(d, id, true, {}).after;
    assert t.users[id := t.users[id].(trashed := false)] == d.users;
  }
}
