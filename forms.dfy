/**
  The validators of myapp/forms.py: `LoginForm.clean`, the registration
  checks (`clean_password2`, `clean_username`, `clean_email`, plus the
  required-field and `sex`-choice checks the model form adds) and
  `RegistrationForm.save`, and the profile form's uniqueness checks, which
  ignore the account being edited. `authenticate`, the password hasher and
  `uuid4().hex` are parameters.
 */
module Forms {
  import opened Wrappers
  import opened Models
  import opened Accounts

  datatype FieldName = UsernameField | EmailField | NicknameField | SexField | AgeField | Password1Field | Password2Field

  datatype FormError =
    | BadCredentials           // "用户名或密码错误"
    | PasswordMismatch         // "两次密码输入不一致"
    | UsernameExists           // "用户名已存在"
    | EmailExists              // "邮箱已被注册"
    | UsernameInUse            // profile: "该用户名已被使用…"
    | EmailInUse               // profile: "该邮箱已被注册…"
    | InvalidChoice            // a `sex` value outside the choices
    | Required(field: FieldName)

  // ---------------------------------------------------------------- login

  /** The login form's cleaned data; `user` is what `clean` stores. */
  datatype LoginData = LoginData(username: Option<string>, password: Option<string>, user: Option<User>)

  /**
    `LoginForm.clean`: only when both username and password are filled is
    `authenticate` consulted; a failure is an error, a success is stored
    under `user`.
   */
  function LoginClean(data: LoginData, authenticate: (string, string) -> Option<User>): (r: Result<LoginData, FormError>)
    ensures !(Filled(data.username) && Filled(data.password)) ==> r == Ok(data)
    ensures Filled(data.username) && Filled(data.password) ==>
      var found := authenticate(data.username.value, data.password.value);
      && (r.Err? <==> found.None?)
      && (r.Err? ==> r.error == BadCredentials)
      && (r.Ok? ==> r.value == data.(user := found))
  {
    if Filled(data.username) && Filled(data.password) then
      var user := authenticate(data.username.value, data.password.value);
      if user.None? then Err(BadCredentials) else Ok(data.(user := user))
    else
      Ok(data)
  }

  // ---------------------------------------------------------------- lookups

  predicate EmailTaken(users: seq<User>, email: string) {
    exists i :: 0 <= i < |users| && users[i].email == email
  }

  /** `filter(field=value).exclude(pk=excluded).first()`: the first match by table order. */
  function FirstOther(users: seq<User>, byEmail: bool, value: string, excluded: Option<nat>): (r: Option<nat>)
    ensures r.Some? ==>
      && r.value < |users|
      && (if byEmail then users[r.value].email else users[r.value].username) == value
      && (excluded.Some? ==> users[r.value].pk != excluded.value)
    ensures r.None? ==> forall i :: 0 <= i < |users| ==>
      (if byEmail then users[i].email else users[i].username) != value
      || (excluded.Some? && users[i].pk == excluded.value)
  {
    if users == [] then None
    else if (if byEmail then users[0].email else users[0].username) == value
         && (excluded.None? || users[0].pk != excluded.value) then Some(0)
    else
      var r := FirstOther(users[1..], byEmail, value, excluded);
      if r.Some? then Some(r.value + 1) else None
  }

  // ---------------------------------------------------------------- registration

  /** `RegistrationForm.clean_password2` (`None` when the field did not clean). */
  function CleanPassword2(password1: Option<string>, password2: Option<string>): (r: Result<Option<string>, FormError>)
    ensures r.Err? <==> Filled(password1) && Filled(password2) && password1.value != password2.value
    ensures r.Err? ==> r.error == PasswordMismatch
    ensures r.Ok? ==> r.value == password2
  {
    if Filled(password1) && Filled(password2) && password1.value != password2.value then Err(PasswordMismatch)
    else Ok(password2)
  }

  /** `RegistrationForm.clean_username`: any existing account with the name rejects it. */
  function RegistrationCleanUsername(users: seq<User>, username: string): (r: Result<string, FormError>)
    ensures r.Err? <==> UsernameTaken(users, username)
    ensures r.Err? ==> r.error == UsernameExists
    ensures r.Ok? ==> r.value == username
  {
    if FirstOther(users, false, username, None).Some? then Err(UsernameExists) else Ok(username)
  }

  /** `RegistrationForm.clean_email`: any existing account with the address rejects it. */
  function RegistrationCleanEmail(users: seq<User>, email: string): (r: Result<string, FormError>)
    ensures r.Err? <==> EmailTaken(users, email)
    ensures r.Err? ==> r.error == EmailExists
    ensures r.Ok? ==> r.value == email
  {
    if FirstOther(users, true, email, None).Some? then Err(EmailExists) else Ok(email)
  }

  /** The submitted registration form (fields `username, email, nickname, sex, age`, then the passwords). */
  datatype Registration = Registration(
    username: string,
    email: string,
    nickname: string,
    sex: int,
    age: Option<int>,
    password1: string,
    password2: string)

  /** The username field: required, then `clean_username`. */
  function UsernameErrors(users: seq<User>, username: string): (errs: seq<FormError>)
    ensures errs == (if username == [] then [Required(UsernameField)]
                     else if UsernameTaken(users, username) then [UsernameExists] else [])
  {
    if username == [] then [Required(UsernameField)]
    else
      var r := RegistrationCleanUsername(users, username);
      if r.Err? then [r.error] else []
  }

  /** The email field: required, then `clean_email`. */
  function EmailErrors(users: seq<User>, email: string): (errs: seq<FormError>)
    ensures errs == (if email == [] then [Required(EmailField)]
                     else if EmailTaken(users, email) then [EmailExists] else [])
  {
    if email == [] then [Required(EmailField)]
    else
      var r := RegistrationCleanEmail(users, email);
      if r.Err? then [r.error] else []
  }

  /** The password2 field: required, then `clean_password2` (`password1` is absent when it did not clean). */
  function Password2Errors(password1: string, password2: string): (errs: seq<FormError>)
    ensures errs == (if password2 == [] then [Required(Password2Field)]
                     else if password1 != [] && password1 != password2 then [PasswordMismatch] else [])
  {
    if password2 == [] then [Required(Password2Field)]
    else
      var r := CleanPassword2(if password1 == [] then None else Some(password1), Some(password2));
      if r.Err? then [r.error] else []
  }

  /** The remaining fields: required text and age, and the `sex` choice. */
  function OtherErrors(f: Registration): (errs: seq<FormError>)
    ensures errs == [] <==> f.nickname != [] && f.sex in SexChoices && f.age.Some? && f.password1 != []
    ensures UsernameExists !in errs && EmailExists !in errs && PasswordMismatch !in errs
  {
    (if f.nickname == [] then [Required(NicknameField)] else [])
    + (if f.sex in SexChoices then [] else [InvalidChoice])
    + (if f.age.None? then [Required(AgeField)] else [])
    + (if f.password1 == [] then [Required(Password1Field)] else [])
  }

  /**
    The errors `is_valid()` collects. Every field is required (none of them
    is declared `blank=True`); `sex` must be one of the choices; the
    `clean_` methods run only on fields that cleaned. (The order among the
    errors is not modelled: Django keys them by field.)
   */
  function RegistrationErrors(users: seq<User>, f: Registration): (errs: seq<FormError>)
    ensures errs == [] <==>
      && f.username != [] && !UsernameTaken(users, f.username)
      && f.email != [] && !EmailTaken(users, f.email)
      && f.nickname != []
      && f.sex in SexChoices
      && f.age.Some?
      && f.password1 != [] && f.password2 == f.password1
    ensures UsernameExists in errs <==> f.username != [] && UsernameTaken(users, f.username)
    ensures EmailExists in errs <==> f.email != [] && EmailTaken(users, f.email)
    ensures PasswordMismatch in errs <==> f.password1 != [] && f.password2 != [] && f.password1 != f.password2
  {
    var u := UsernameErrors(users, f.username);
    var e := EmailErrors(users, f.email);
    var p := Password2Errors(f.password1, f.password2);
    var o := OtherErrors(f);
    assert |u + e + p + o| == |u| + |e| + |p| + |o|;
    u + e + p + o
  }

  /**
    The account `RegistrationForm.save` stores: the form's fields, a fresh
    `user_ID`, the hashed `password1`, and the model defaults for the rest.
   */
  function Registered(pk: nat, f: Registration, uuidHex: string, hash: string -> string): User {
    User(pk, f.username, f.email, hash(f.password1), f.nickname, f.sex, f.age, uuidHex, true, false, false)
  }

  /**
    A form that passed validation yields an account whose username is new,
    whose `sex` is a valid choice, whose password is the hash of the
    confirmed password, and that has no staff or superuser rights.
   */
  lemma RegisteredAccountValid(users: seq<User>, pk: nat, f: Registration, uuidHex: string, hash: string -> string)
    requires UniqueUsernames(users) && RegistrationErrors(users, f) == []
    ensures var u := Registered(pk, f, uuidHex, hash);
      && UniqueUsernames(users + [u])
      && u.sex in SexChoices
      && u.password == hash(f.password1) && u.password == hash(f.password2)
      && !u.isStaff && !u.isSuperuser && u.isActive
  {
    var u := Registered(pk, f, uuidHex, hash);
    var all := users + [u];
    forall i, j | 0 <= i < j < |all| ensures all[i].username != all[j].username {
      if j == |users| {
        assert all[i] == users[i];
      } else {
        assert all[i] == users[i] && all[j] == users[j];
      }
    }
  }

  /** `RegistrationForm.save(commit=True)` on a validated form. */
  method Save(table: UserTable, f: Registration, uuidHex: string, hash: string -> string) returns (user: User)
    requires table.Valid() && RegistrationErrors(table.users, f) == []
    modifies table
    ensures table.Valid()
    ensures user == Registered(old(table.nextPk), f, uuidHex, hash)
    ensures table.users == old(table.users) + [user]
  {
    user := Registered(table.nextPk, f, uuidHex, hash);
    table.Insert(user);
  }

  // ---------------------------------------------------------------- profile

  /**
    `ProfileForm.clean_username`: an empty value is not checked; otherwise
    the name is rejected exactly when an account other than the one being
    edited (`selfPk`) holds it.
   */
  function ProfileCleanUsername(users: seq<User>, selfPk: nat, username: Option<string>): (r: Result<Option<string>, FormError>)
    ensures !Filled(username) ==> r == Ok(username)
    ensures r.Err? <==> (Filled(username)
      && exists i :: 0 <= i < |users| && users[i].username == username.value && users[i].pk != selfPk)
    ensures r.Err? ==> r.error == UsernameInUse
    ensures r.Ok? ==> r.value == username
  {
    if Filled(username) && FirstOther(users, false, username.value, Some(selfPk)).Some? then Err(UsernameInUse)
    else Ok(username)
  }

  /** `ProfileForm.clean_email`, the same rule for the address. */
  function ProfileCleanEmail(users: seq<User>, selfPk: nat, email: Option<string>): (r: Result<Option<string>, FormError>)
    ensures !Filled(email) ==> r == Ok(email)
    ensures r.Err? <==> (Filled(email)
      && exists i :: 0 <= i < |users| && users[i].email == email.value && users[i].pk != selfPk)
    ensures r.Err? ==> r.error == EmailInUse
    ensures r.Ok? ==> r.value == email
  {
    if Filled(email) && FirstOther(users, true, email.value, Some(selfPk)).Some? then Err(EmailInUse)
    else Ok(email)
  }

  /** Saving a profile with the account's own current username is accepted. */
  lemma ProfileKeepsOwnUsername(users: seq<User>, k: nat)
    requires UniqueUsernames(users) && k < |users|
    ensures ProfileCleanUsername(users, users[k].pk, Some(users[k].username)).Ok?
  {
    forall i | 0 <= i < |users| && users[i].username == users[k].username
      ensures users[i].pk == users[k].pk
    {
      assert i == k;
    }
  }

  /**
    A name another account holds is rejected on the profile form, and at
    registration.
   */
  lemma ProfileRejectsOthersUsername(users: seq<User>, k: nat, selfPk: nat)
    requires k < |users| && users[k].pk != selfPk && users[k].username != []
    ensures ProfileCleanUsername(users, selfPk, Some(users[k].username)) == Err(UsernameInUse)
    ensures RegistrationCleanUsername(users, users[k].username) == Err(UsernameExists)
  {
  }

  /**
    `email` is not unique, so two accounts may share an address (through
    `create_user` or the admin). Then neither can save the profile form even
    with the address unchanged: the other account counts as a clash.
   */
  lemma SharedEmailBlocksProfile(users: seq<User>, i: nat, j: nat)
    requires i < |users| && j < |users| && users[i].pk != users[j].pk
    requires users[i].email == users[j].email && users[i].email != []
    ensures ProfileCleanEmail(users, users[i].pk, Some(users[i].email)) == Err(EmailInUse)
  {
  }
}
