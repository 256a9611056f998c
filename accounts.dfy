/**
  `UserManager` of myapp/models.py: `_create_user` rejects a missing
  username, email or password (in that order), builds the account from the
  remaining keyword arguments, hashes the password and saves it;
  `create_user` and `create_superuser` force the permission flags first.
  Password hashing is a parameter (`hash`); the user table is a class whose
  `users` sequence stands for the database table.
 */
module Accounts {
  import opened Wrappers
  import opened Models

  /** The keyword arguments a caller may pass; `None` means "not passed". */
  datatype Extras = Extras(
    nickname: Option<string>,
    sex: Option<int>,
    age: Option<int>,
    userId: Option<string>,
    isActive: Option<bool>,
    isStaff: Option<bool>,
    isSuperuser: Option<bool>)

  const NoExtras: Extras := Extras(None, None, None, None, None, None, None)

  /** The value passed, or the field's default. */
  function Given<T>(o: Option<T>, default: T): T {
    if o.Some? then o.value else default
  }

  /** Why `_create_user` (or the save behind it) fails. */
  datatype CreateError =
    | MissingUsername      // ValueError('请输入用户名')
    | MissingEmail         // ValueError('请输入邮箱')
    | MissingPassword      // ValueError('请输入密码')
    | DuplicateUsername    // IntegrityError from the unique `username` column

  /** The guard chain of `_create_user`: the first missing value wins. */
  function MissingField(username: string, email: string, password: string): (r: Option<CreateError>)
    ensures r.None? <==> username != [] && email != [] && password != []
    ensures username == [] ==> r == Some(MissingUsername)
    ensures username != [] && email == [] ==> r == Some(MissingEmail)
    ensures username != [] && email != [] && password == [] ==> r == Some(MissingPassword)
  {
    if username == [] then Some(MissingUsername)
    else if email == [] then Some(MissingEmail)
    else if password == [] then Some(MissingPassword)
    else None
  }

  /**
    `self.model(username=..., email=..., **kwargs)` followed by
    `set_password`: every field not passed takes its declared default
    (`sex` 1, active, neither staff nor superuser, empty nickname and ID).
   */
  function BuildUser(pk: nat, username: string, email: string, hashed: string, extras: Extras): (u: User)
    ensures u.pk == pk && u.username == username && u.email == email && u.password == hashed
    ensures extras.sex.None? ==> u.sex == DefaultSex
    ensures extras.isSuperuser.None? ==> !u.isSuperuser
    ensures extras.isStaff.None? ==> !u.isStaff
    ensures extras.isActive.None? ==> u.isActive
  {
    User(pk, username, email, hashed,
      Given(extras.nickname, ""), Given(extras.sex, DefaultSex), extras.age, Given(extras.userId, ""),
      Given(extras.isActive, true), Given(extras.isStaff, false), Given(extras.isSuperuser, false))
  }

  /** Whether some account already has this username. */
  predicate UsernameTaken(users: seq<User>, name: string) {
    exists i :: 0 <= i < |users| && users[i].username == name
  }

  /**
    What `_create_user` returns against the table `users`, the new account
    taking primary key `pk`.
   */
  function CreateResult(users: seq<User>, pk: nat, username: string, email: string, password: string,
                        extras: Extras, hash: string -> string): (r: Result<User, CreateError>)
    ensures r.Ok? <==> username != [] && email != [] && password != [] && !UsernameTaken(users, username)
    ensures r.Ok? ==> r.value.username == username && r.value.email == email && r.value.password == hash(password)
    ensures r.Ok? && UniqueUsernames(users) ==> UniqueUsernames(users + [r.value])
    ensures r.Err? && MissingField(username, email, password).Some? ==> r.error == MissingField(username, email, password).value
  {
    var missing := MissingField(username, email, password);
    if missing.Some? then Err(missing.value)
    else if UsernameTaken(users, username) then Err(DuplicateUsername)
    else Ok(BuildUser(pk, username, email, hash(password), extras))
  }

  /** `kwargs['is_superuser'] = False` */
  function UserKwargs(extras: Extras): Extras {
    extras.(isSuperuser := Some(false))
  }

  /** `kwargs['is_superuser'] = True; kwargs['is_staff'] = True` */
  function SuperuserKwargs(extras: Extras): Extras {
    extras.(isSuperuser := Some(true), isStaff := Some(true))
  }

  /**
    `create_user`: succeeds exactly when `_create_user` would with the
    caller's own arguments, and yields the same account with
    `is_superuser` false whatever the caller passed.
   */
  function CreateUserResult(users: seq<User>, pk: nat, username: string, email: string, password: string,
                            extras: Extras, hash: string -> string): (r: Result<User, CreateError>)
    ensures var plain := CreateResult(users, pk, username, email, password, extras, hash);
      && (r.Ok? <==> plain.Ok?)
      && (r.Err? ==> r == plain)
      && (r.Ok? ==> !r.value.isSuperuser && r.value == plain.value.(isSuperuser := false))
  {
    CreateResult(users, pk, username, email, password, UserKwargs(extras), hash)
  }

  /**
    `create_superuser`: succeeds exactly when `_create_user` would, and
    yields the same account with both `is_superuser` and `is_staff` true.
   */
  function CreateSuperuserResult(users: seq<User>, pk: nat, username: string, email: string, password: string,
                                 extras: Extras, hash: string -> string): (r: Result<User, CreateError>)
    ensures var plain := CreateResult(users, pk, username, email, password, extras, hash);
      && (r.Ok? <==> plain.Ok?)
      && (r.Err? ==> r == plain)
      && (r.Ok? ==> r.value.isSuperuser && r.value.isStaff
                    && r.value == plain.value.(isSuperuser := true, isStaff := true))
  {
    CreateResult(users, pk, username, email, password, SuperuserKwargs(extras), hash)
  }

  /** The account table: usernames and primary keys unique, keys below `nextPk`. */
  class UserTable {
    var users: seq<User>
    var nextPk: nat

    ghost predicate Valid()
      reads this
    {
      && UniqueUsernames(users)
      && UniquePks(users)
      && forall i :: 0 <= i < |users| ==> users[i].pk < nextPk
    }

    constructor ()
      ensures Valid() && users == []
    {
      users := [];
      nextPk := 1;
    }

    /** Append `u` under a fresh primary key (`user.save()` of a new row). */
    method Insert(u: User)
      requires Valid() && u.pk == nextPk && !UsernameTaken(users, u.username)
      modifies this
      ensures Valid()
      ensures users == old(users) + [u] && nextPk == old(nextPk) + 1
    {
      users := users + [u];
      nextPk := nextPk + 1;
    }

    /** `UserManager._create_user` */
    method CreateUserWith(username: string, email: string, password: string, extras: Extras, hash: string -> string)
      returns (r: Result<User, CreateError>)
      requires Valid()
      modifies this
      ensures Valid()
      ensures r == CreateResult(old(users), old(nextPk), username, email, password, extras, hash)
      ensures r.Ok? ==> users == old(users) + [r.value] && nextPk == old(nextPk) + 1
      ensures r.Err? ==> users == old(users) && nextPk == old(nextPk)
    {
      if username == [] {
        return Err(MissingUsername);
      }
      if email == [] {
        return Err(MissingEmail);
      }
      if password == [] {
        return Err(MissingPassword);
      }
      if UsernameTaken(users, username) {
        return Err(DuplicateUsername);
      }
      var user := BuildUser(nextPk, username, email, hash(password), extras);
      Insert(user);
      r := Ok(user);
    }

    /** `UserManager.create_user` */
    method CreateUser(username: string, email: string, password: string, extras: Extras, hash: string -> string)
      returns (r: Result<User, CreateError>)
      requires Valid()
      modifies this
      ensures Valid()
      ensures r == CreateUserResult(old(users), old(nextPk), username, email, password, extras, hash)
      ensures r.Ok? ==> users == old(users) + [r.value] && !r.value.isSuperuser
      ensures r.Err? ==> users == old(users) && nextPk == old(nextPk)
    {
      var kwargs := extras.(isSuperuser := Some(false));
      r := CreateUserWith(username, email, password, kwargs, hash);
    }

    /** `UserManager.create_superuser` */
    method CreateSuperuser(username: string, email: string, password: string, extras: Extras, hash: string -> string)
      returns (r: Result<User, CreateError>)
      requires Valid()
      modifies this
      ensures Valid()
      ensures r == CreateSuperuserResult(old(users), old(nextPk), username, email, password, extras, hash)
      ensures r.Ok? ==> users == old(users) + [r.value] && r.value.isSuperuser && r.value.isStaff
      ensures r.Err? ==> users == old(users) && nextPk == old(nextPk)
    {
      var kwargs := extras.(isSuperuser := Some(true));
      kwargs := kwargs.(isStaff := Some(true));
      r := CreateUserWith(username, email, password, kwargs, hash);
    }
  }
}
