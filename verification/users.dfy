/** The users table and the field rules of the user endpoints: which
    registrations are accepted, which columns each role may read, and which
    columns an update request may change. */
module Users {
  import opened Common
  import opened Identity
  import opened Session

  /** A row of the users table (its id is the key of the table map).
      `password` holds the digest, `token` the account token. */
  datatype User = User(
    email: string,
    password: string,
    firstname: string,
    lastname: string,
    birthday: Date,
    adress: string,
    postalCode: string,
    age: int,
    meta: string,
    registrationDate: Date,
    token: nat,
    role: string)

  /** The users table: id to row. */
  type Table = map<int, User>

  /** `user_exists`: some row has this email. */
  predicate EmailTaken(users: Table, email: string) {
    exists id :: id in users && users[id].email == email
  }

  /** No two rows share an email: the property `user_exists` guards. */
  ghost predicate EmailsUnique(users: Table) {
    forall i, j :: i in users && j in users && users[i].email == users[j].email ==> i == j
  }

  /** Row `id` has this email and this password digest (the WHERE clause
      of `connect` and `update_password`). */
  predicate Credentials(users: Table, id: int, email: string, digest: string) {
    id in users && users[id].email == email && users[id].password == digest
  }

  /** A column value as the JSON response carries it. */
  datatype Value = Text(text: string) | Number(number: int) | Day(date: Date)

  /** The columns of a row, the id aside. */
  const Columns: set<string> := {"email", "password", "firstname", "lastname", "birthday_date",
    "adress", "postal_code", "age", "meta", "registration_date", "token", "role"}

  /** The columns every authenticated caller may read. */
  const PublicFields: set<string> := {"email", "firstname", "lastname", "age", "registration_date", "role"}

  /** The columns only an admin may read, on top of the public ones. */
  const AdminOnlyFields: set<string> := {"birthday_date", "adress", "postal_code", "meta", "token"}

  /** The value of a named column of a row. */
  function Column(u: User, name: string): Value
    requires name in Columns
  {
    match name
    case "email" => Text(u.email)
    case "password" => Text(u.password)
    case "firstname" => Text(u.firstname)
    case "lastname" => Text(u.lastname)
    case "birthday_date" => Day(u.birthday)
    case "adress" => Text(u.adress)
    case "postal_code" => Text(u.postalCode)
    case "age" => Number(u.age)
    case "meta" => Text(u.meta)
    case "registration_date" => Day(u.registrationDate)
    case "token" => Text(DecimalString(u.token))
    case _ => Text(u.role)
  }

  /** The dictionary `get_user` returns for a row, by the caller's role.
      The JSON column `meta` is kept as its JSON text. */
  function View(u: User, role: string): (v: map<string, Value>)
    ensures role == "admin" ==> v.Keys == PublicFields + AdminOnlyFields
    ensures role != "admin" ==> v.Keys == PublicFields
    ensures "password" !in v
    ensures forall k :: k in v ==> k in Columns && v[k] == Column(u, k)
  {
    var fields := if role == "admin" then PublicFields + AdminOnlyFields else PublicFields;
    map k | k in fields :: Column(u, k)
  }

  /** The admin view is the public view plus exactly the five admin-only
      columns, with the same values where they overlap. */
  lemma AdminViewExtendsPublic(u: User, role: string)
    requires role != "admin"
    ensures View(u, role).Keys <= View(u, "admin").Keys
    ensures View(u, "admin").Keys - View(u, role).Keys == AdminOnlyFields
    ensures forall k :: k in View(u, role) ==> View(u, "admin")[k] == View(u, role)[k]
  {
  }

  /** The body of `create_user`. */
  datatype Registration = Registration(
    email: string,
    password: string,
    firstname: string,
    lastname: string,
    birthday: Date,
    adress: string,
    postalCode: string)

  /** The checks of `create_user`, in the order the source makes them. */
  function CheckRegistration(users: Table, req: Registration): (r: Result<()>)
    ensures r.Ok? <==> |req.email| <= 320 && |req.password| >= 8 && !EmailTaken(users, req.email)
    ensures r.Err? ==> r.status == 400
    ensures |req.email| > 320 ==> r.detail == "Too long email adress"
    ensures r == Err(400, "Too short password") <==> |req.email| <= 320 && |req.password| < 8
    ensures r == Err(400, "Email already taken")
            <==> |req.email| <= 320 && |req.password| >= 8 && EmailTaken(users, req.email)
  {
    if |req.email| > 320 then Err(400, "Too long email adress")
    else if |req.password| < 8 then Err(400, "Too short password")
    else if EmailTaken(users, req.email) then Err(400, "Email already taken")
    else Ok(())
  }

  /** The row `create_user` inserts, given the password digest, the account
      token and today's date. */
  function NewUserRow(req: Registration, digest: string, token: nat, today: Date): (u: User)
    ensures u.role == "user" && u.meta == "{}" && u.password == digest && u.token == token
    ensures u.age == CalculateAge(req.birthday, today) && u.registrationDate == today
    ensures u.email == req.email && u.firstname == req.firstname && u.lastname == req.lastname
    ensures u.birthday == req.birthday && u.adress == req.adress && u.postalCode == req.postalCode
  {
    User(req.email, digest, req.firstname, req.lastname, req.birthday, req.adress, req.postalCode,
         CalculateAge(req.birthday, today), "{}", today, token, "user")
  }

  /** The body of `update_user`: every field may be absent. */
  datatype UserUpdate = UserUpdate(
    id: Option<int>,
    email: Option<string>,
    firstname: Option<string>,
    lastname: Option<string>,
    birthday: Option<Date>,
    adress: Option<string>,
    postalCode: Option<string>,
    role: Option<string>)

  /** The `values` dictionary of `update_user`: the row to update (the
      `:id` parameter, absent when nothing bound it) and the columns to set. */
  datatype Patch = Patch(
    target: Option<int>,
    email: Option<string>,
    firstname: Option<string>,
    lastname: Option<string>,
    birthday: Option<Date>,
    age: Option<int>,
    adress: Option<string>,
    postalCode: Option<string>,
    role: Option<string>)

  /** Keep the present value, or fall back to the current one. */
  function Pick<T>(o: Option<T>, current: T): T {
    if o.Some? then o.value else current
  }

  /** The mask `update_user` builds, or the error it raises first. */
  function PatchFor(users: Table, claims: Claims, req: UserUpdate, today: Date): (r: Result<Patch>)
    ensures r.Err? ==> r.status == 401 || r.status == 400
    ensures r.Err? && r.status == 401 <==> claims.role != "admin" && (TruthyInt(req.id) || TruthyText(req.firstname)
                                                                    || TruthyText(req.lastname) || TruthyText(req.role))
    ensures r.Ok? ==> (r.value.target.Some? <==> claims.role == "admin")
    ensures r.Ok? ==> r.value.email.Some? ==> r.value.email.value != "" && !EmailTaken(users, r.value.email.value)
    ensures r.Ok? ==> r.value.email.Some? ==> |r.value.email.value| <= 320
  {
    var admin := claims.role == "admin";
    if !admin && TruthyInt(req.id) then Err(401, "You can only update yourself")
    else if !admin && (TruthyText(req.firstname) || TruthyText(req.lastname)) then
      Err(401, "Not allowed to update your name")
    else if !admin && TruthyText(req.role) then Err(401, "Not allowed to update your role")
    else if TruthyText(req.email) && |req.email.value| > 320 then Err(400, "Too long email adress")
    else if TruthyText(req.email) && EmailTaken(users, req.email.value) then Err(400, "Email already taken")
    else
      Ok(Patch(
        if admin then Some(if TruthyInt(req.id) then req.id.value else claims.id) else None,
        if TruthyText(req.email) then req.email else None,
        if admin && TruthyText(req.firstname) then req.firstname else None,
        if admin && TruthyText(req.lastname) then req.lastname else None,
        req.birthday,
        if req.birthday.Some? then Some(CalculateAge(req.birthday.value, today)) else None,
        if TruthyText(req.adress) then req.adress else None,
        if TruthyText(req.postalCode) then req.postalCode else None,
        if admin && TruthyText(req.role) then req.role else None))
  }

  /** A non-admin caller supplying an id, a name or a role is refused with
      401, in that order; a non-admin mask never binds a target row nor
      touches names or role. */
  lemma NonAdminUpdateRules(users: Table, claims: Claims, req: UserUpdate, today: Date)
    requires claims.role != "admin"
    ensures TruthyInt(req.id) ==> PatchFor(users, claims, req, today) == Err(401, "You can only update yourself")
    ensures !TruthyInt(req.id) && (TruthyText(req.firstname) || TruthyText(req.lastname))
            ==> PatchFor(users, claims, req, today) == Err(401, "Not allowed to update your name")
    ensures !TruthyInt(req.id) && !TruthyText(req.firstname) && !TruthyText(req.lastname) && TruthyText(req.role)
            ==> PatchFor(users, claims, req, today) == Err(401, "Not allowed to update your role")
    ensures PatchFor(users, claims, req, today).Ok? ==>
              var p := PatchFor(users, claims, req, today).value;
              p.target.None? && p.firstname.None? && p.lastname.None? && p.role.None?
  {
  }

  /** An admin is never refused with 401; the mask targets the request id
      when it is truthy and the caller's own id otherwise, and carries the
      truthy name and role fields. */
  lemma AdminUpdateRules(users: Table, claims: Claims, req: UserUpdate, today: Date)
    requires claims.role == "admin"
    ensures PatchFor(users, claims, req, today).Err? ==> PatchFor(users, claims, req, today).status == 400
    ensures PatchFor(users, claims, req, today).Ok? ==>
              var p := PatchFor(users, claims, req, today).value;
              && p.target == Some(if TruthyInt(req.id) then req.id.value else claims.id)
              && p.firstname == (if TruthyText(req.firstname) then req.firstname else None)
              && p.lastname == (if TruthyText(req.lastname) then req.lastname else None)
              && p.role == (if TruthyText(req.role) then req.role else None)
  {
  }

  /** Falsy fields are left out of the mask, and a birthday brings the age
      computed from it. */
  lemma UpdateFieldRules(users: Table, claims: Claims, req: UserUpdate, today: Date)
    ensures PatchFor(users, claims, req, today).Ok? ==>
              var p := PatchFor(users, claims, req, today).value;
              && p.email == (if TruthyText(req.email) then req.email else None)
              && p.adress == (if TruthyText(req.adress) then req.adress else None)
              && p.postalCode == (if TruthyText(req.postalCode) then req.postalCode else None)
              && p.birthday == req.birthday
              && (p.age.Some? <==> p.birthday.Some?)
              && (p.birthday.Some? ==> p.age == Some(CalculateAge(p.birthday.value, today)))
  {
  }

  /** An email already in the table is refused even when it is the
      caller's own; an accepted mask never carries a taken email. */
  lemma UpdateEmailRules(users: Table, claims: Claims, req: UserUpdate, today: Date)
    ensures TruthyText(req.email) && |req.email.value| > 320
            && (claims.role == "admin" || (!TruthyInt(req.id) && !TruthyText(req.firstname)
                                           && !TruthyText(req.lastname) && !TruthyText(req.role)))
            ==> PatchFor(users, claims, req, today) == Err(400, "Too long email adress")
    ensures PatchFor(users, claims, req, today).Ok? && PatchFor(users, claims, req, today).value.email.Some?
            ==> !EmailTaken(users, PatchFor(users, claims, req, today).value.email.value)
    ensures claims.id in users && req.email == Some(users[claims.id].email) && users[claims.id].email != ""
            && |users[claims.id].email| <= 320
            && (claims.role == "admin" || (!TruthyInt(req.id) && !TruthyText(req.firstname)
                                           && !TruthyText(req.lastname) && !TruthyText(req.role)))
            ==> PatchFor(users, claims, req, today) == Err(400, "Email already taken")
  {
  }

  /** `UPDATE users SET ... WHERE id = :id` applied to one row: the columns
      present in the mask are set, the others kept. */
  function ApplyPatch(u: User, p: Patch): (v: User)
    ensures p == Patch(p.target, None, None, None, None, None, None, None, None) ==> v == u
    ensures p.email.Some? ==> v.email == p.email.value
    ensures p.email.None? ==> v.email == u.email
    ensures p.firstname.Some? ==> v.firstname == p.firstname.value
    ensures p.firstname.None? ==> v.firstname == u.firstname
    ensures p.lastname.Some? ==> v.lastname == p.lastname.value
    ensures p.lastname.None? ==> v.lastname == u.lastname
    ensures p.birthday.Some? ==> v.birthday == p.birthday.value
    ensures p.birthday.None? ==> v.birthday == u.birthday
    ensures p.age.Some? ==> v.age == p.age.value
    ensures p.age.None? ==> v.age == u.age
    ensures p.adress.Some? ==> v.adress == p.adress.value
    ensures p.adress.None? ==> v.adress == u.adress
    ensures p.postalCode.Some? ==> v.postalCode == p.postalCode.value
    ensures p.postalCode.None? ==> v.postalCode == u.postalCode
    ensures p.role.Some? ==> v.role == p.role.value
    ensures p.role.None? ==> v.role == u.role
    ensures v.password == u.password && v.token == u.token && v.meta == u.meta
            && v.registrationDate == u.registrationDate
  {
    u.(email := Pick(p.email, u.email),
       firstname := Pick(p.firstname, u.firstname),
       lastname := Pick(p.lastname, u.lastname),
       birthday := Pick(p.birthday, u.birthday),
       age := Pick(p.age, u.age),
       adress := Pick(p.adress, u.adress),
       postalCode := Pick(p.postalCode, u.postalCode),
       role := Pick(p.role, u.role))
  }

  /** `UPDATE users SET ... WHERE id = :id`: the row with that id, if any,
      gets the mask; a missing row makes it a no-op. */
  function UpdateWhere(users: Table, id: int, p: Patch): (r: Table)
    ensures r.Keys == users.Keys
    ensures forall k :: k in users && k != id ==> r[k] == users[k]
    ensures id in users ==> r[id] == ApplyPatch(users[id], p)
  {
    if id in users then users[id := ApplyPatch(users[id], p)] else users
  }

  /** Applying a mask whose email is free keeps emails unique. */
  lemma ApplyPatchKeepsEmailsUnique(users: Table, id: int, p: Patch)
    requires EmailsUnique(users) && id in users
    requires p.email.Some? ==> !EmailTaken(users, p.email.value)
    ensures EmailsUnique(users[id := ApplyPatch(users[id], p)])
  {
    var users' := users[id := ApplyPatch(users[id], p)];
    forall i, j | i in users' && j in users' && users'[i].email == users'[j].email
      ensures i == j
    {
      if i != id && j != id {
        assert users[i].email == users[j].email;
      }
    }
  }

  /** The body of `update_password`. */
  datatype PasswordChange = PasswordChange(email: string, password: string, newPassword: string, repeatNewPassword: string)

  /** The password update of `update_password`: every row with this email
      gets the new digest. */
  function SetPassword(users: Table, email: string, digest: string): (r: Table)
    ensures r.Keys == users.Keys
    ensures forall id :: id in users && users[id].email == email ==> r[id] == users[id].(password := digest)
    ensures forall id :: id in users && users[id].email != email ==> r[id] == users[id]
  {
    map id | id in users :: if users[id].email == email then users[id].(password := digest) else users[id]
  }

  /** After the update the new password logs in for every row that the old
      one did, the old one no longer does (unless the digests agree), and
      emails stay unique. */
  lemma SetPasswordRules(users: Table, email: string, digest: string, id: int, previous: string)
    requires Credentials(users, id, email, previous)
    ensures Credentials(SetPassword(users, email, digest), id, email, digest)
    ensures previous != digest ==> !Credentials(SetPassword(users, email, digest), id, email, previous)
    ensures SetPassword(users, email, digest).Keys == users.Keys
    ensures EmailsUnique(users) ==> EmailsUnique(SetPassword(users, email, digest))
  {
    var users' := SetPassword(users, email, digest);
    assert forall i :: i in users ==> users'[i].email == users[i].email;
  }
}
