/** The ProtoRH backend: the database tables as fields of one object, and
    each HTTP endpoint of the core as a method that checks the session,
    decides, and updates the tables. The server-wide salt, the JWT secret
    and the digest function are fixed when the object is built; the
    current time and date are parameters of each call. */
module Backend {
  import opened Common
  import opened Identity
  import opened Session
  import opened Users
  import opened RequestsRH
  import opened Departments
  import opened Pictures

  class ProtoRH {
    const salt: string
    const secretKey: string
    const md5: string -> string

    var users: Users.Table
    var nextUserId: int
    var departments: set<int>
    var memberships: set<Pair>
    var requests: RequestsRH.Table
    var nextRequestId: int
    /** The file names in the profile-picture directory. */
    var pictures: set<string>

    /** The integrity the endpoints maintain: unique emails, autoincrement
        ids above every stored id, and every HR request's history starting
        with an entry by its owner dated on its creation day. */
    ghost predicate Valid()
      reads this
    {
      && EmailsUnique(users)
      && 1 <= nextUserId
      && (forall id :: id in users ==> 1 <= id < nextUserId)
      && 1 <= nextRequestId
      && (forall id :: id in requests ==> 1 <= id < nextRequestId && WellFormed(requests[id]))
    }

    constructor (salt: string, secretKey: string, md5: string -> string, departments: set<int>, pictures: set<string>)
      ensures Valid()
      ensures this.salt == salt && this.secretKey == secretKey && this.md5 == md5
      ensures this.departments == departments && this.pictures == pictures
      ensures users == map[] && requests == map[] && memberships == {}
    {
      this.salt, this.secretKey, this.md5 := salt, secretKey, md5;
      this.departments, this.pictures := departments, pictures;
      users, nextUserId := map[], 1;
      requests, nextRequestId := map[], 1;
      memberships := {};
    }

    /** `create_user` (POST /user/create). */
    method CreateUser(req: Registration, today: Date) returns (r: Result<string>)
      requires Valid()
      modifies this`users, this`nextUserId
      ensures Valid()
      ensures r.Ok? <==> CheckRegistration(old(users), req).Ok?
      ensures r.Err? ==> r == CheckRegistration(old(users), req).PropagateFailure()
                         && users == old(users) && nextUserId == old(nextUserId)
      ensures r.Ok? ==>
                && r.value == "User created with success"
                && old(nextUserId) !in old(users)
                && users == old(users)[old(nextUserId) := NewUserRow(req, GenPassword(md5, salt, req.password),
                                                                      DjbFold32(req.email + req.firstname + req.lastname + salt), today)]
                && nextUserId == old(nextUserId) + 1
      ensures r.Ok? ==>
                var row := users[old(nextUserId)];
                row.role == "user" && row.meta == "{}" && row.password == GenPassword(md5, salt, req.password)
                && row.age == CalculateAge(req.birthday, today) && row.registrationDate == today
    {
      var check := CheckRegistration(users, req);
      if check.Err? {
        return check.PropagateFailure();
      }
      var token := GenToken(req.email, req.firstname, req.lastname, salt);
      var row := NewUserRow(req, GenPassword(md5, salt, req.password), token, today);
      users := users[nextUserId := row];
      nextUserId := nextUserId + 1;
      r := Ok("User created with success");
    }

    /** `connect` (POST /connect): a token for the row matching the email and
        the password's digest, or a bare 401. */
    method Connect(email: string, password: string, now: int) returns (r: Result<Jwt>)
      requires Valid()
      ensures r.Ok? <==> exists id :: Credentials(users, id, email, GenPassword(md5, salt, password))
      ensures r.Err? ==> r == Err(401, Unauthorized)
      ensures r.Ok? ==>
                && r.value.Signed?
                && Credentials(users, r.value.claims.id, email, GenPassword(md5, salt, password))
                && r.value == GenJwt(r.value.claims.id, email, users[r.value.claims.id].role, now, secretKey)
    {
      var digest := GenPassword(md5, salt, password);
      var found := set id | id in users && Credentials(users, id, email, digest);
      assert forall id :: Credentials(users, id, email, digest) ==> id in found;
      if found == {} {
        return Err(401, Unauthorized);
      }
      var id := Choose(found);
      r := Ok(GenJwt(id, email, users[id].role, now, secretKey));
    }

    /** `get_user` (GET /user/{user_id}). */
    method GetUser(token: Jwt, userId: int, now: int) returns (r: Result<map<string, Value>>)
      ensures DecodeJwt(token, secretKey, now).Err? ==> r == DecodeJwt(token, secretKey, now).PropagateFailure()
      ensures DecodeJwt(token, secretKey, now).Ok? && userId !in users ==> r == Err(404, "User not found")
      ensures DecodeJwt(token, secretKey, now).Ok? && userId in users ==>
                r == Ok(View(users[userId], DecodeJwt(token, secretKey, now).value.role))
    {
      var claims :- DecodeJwt(token, secretKey, now);
      if userId !in users {
        return Err(404, "User not found");
      }
      r := Ok(View(users[userId], claims.role));
    }

    /** `update_user` (POST /user/update): the `values` mask is filled field
        by field and applied to the row it binds. A non-admin mask never
        binds `:id`, so the statement fails and the server answers 500. */
    method UpdateUser(token: Jwt, req: UserUpdate, now: int, today: Date) returns (r: Result<string>)
      requires Valid()
      modifies this`users
      ensures Valid()
      ensures DecodeJwt(token, secretKey, now).Err? ==>
                r == DecodeJwt(token, secretKey, now).PropagateFailure() && users == old(users)
      ensures DecodeJwt(token, secretKey, now).Ok? ==>
                var p := PatchFor(old(users), DecodeJwt(token, secretKey, now).value, req, today);
                && (p.Err? ==> r == p.PropagateFailure() && users == old(users))
                && (p.Ok? && p.value.target.None? ==> r == Err(500, InternalError) && users == old(users))
                && (p.Ok? && p.value.target.Some? ==>
                      r == Ok("User updated with success") && users == UpdateWhere(old(users), p.value.target.value, p.value))
    {
      var claims :- DecodeJwt(token, secretKey, now);
      var values := Patch(None, None, None, None, None, None, None, None, None);
      if claims.role == "admin" {
        if TruthyInt(req.id) {
          values := values.(target := req.id);
        } else {
          values := values.(target := Some(claims.id));
        }
        if TruthyText(req.firstname) {
          values := values.(firstname := req.firstname);
        }
        if TruthyText(req.lastname) {
          values := values.(lastname := req.lastname);
        }
        if TruthyText(req.role) {
          values := values.(role := req.role);
        }
      } else {
        if TruthyInt(req.id) {
          return Err(401, "You can only update yourself");
        }
        if TruthyText(req.firstname) || TruthyText(req.lastname) {
          return Err(401, "Not allowed to update your name");
        }
        if TruthyText(req.role) {
          return Err(401, "Not allowed to update your role");
        }
      }
      if TruthyText(req.email) {
        if |req.email.value| > 320 {
          return Err(400, "Too long email adress");
        }
        if EmailTaken(users, req.email.value) {
          return Err(400, "Email already taken");
        }
        values := values.(email := req.email);
      }
      if req.birthday.Some? {
        values := values.(birthday := req.birthday, age := Some(CalculateAge(req.birthday.value, today)));
      }
      if TruthyText(req.adress) {
        values := values.(adress := req.adress);
      }
      if TruthyText(req.postalCode) {
        values := values.(postalCode := req.postalCode);
      }
      assert PatchFor(users, claims, req, today) == Ok(values);
      if values.target.None? {
        return Err(500, InternalError);
      }
      var target := values.target.value;
      if target in users {
        ApplyPatchKeepsEmailsUnique(users, target, values);
      }
      users := UpdateWhere(users, target, values);
      r := Ok("User updated with success");
    }

    /** `update_password` (POST /user/password): no session needed; the old
        password must log in, and the two new passwords must have the same
        digest. */
    method UpdatePassword(req: PasswordChange) returns (r: Result<string>)
      requires Valid()
      modifies this`users
      ensures Valid()
      ensures !(exists id :: Credentials(old(users), id, req.email, GenPassword(md5, salt, req.password))) ==>
                r == Err(401, Unauthorized) && users == old(users)
      ensures (exists id :: Credentials(old(users), id, req.email, GenPassword(md5, salt, req.password)))
              && GenPassword(md5, salt, req.newPassword) != GenPassword(md5, salt, req.repeatNewPassword) ==>
                r == Err(400, "New passwords should be same") && users == old(users)
      ensures r.Ok? <==>
                (exists id :: Credentials(old(users), id, req.email, GenPassword(md5, salt, req.password)))
                && GenPassword(md5, salt, req.newPassword) == GenPassword(md5, salt, req.repeatNewPassword)
      ensures r.Ok? ==>
                r.value == "Password updated"
                && users == SetPassword(old(users), req.email, GenPassword(md5, salt, req.newPassword))
    {
      var password := GenPassword(md5, salt, req.password);
      var newPassword := GenPassword(md5, salt, req.newPassword);
      var repeatNewPassword := GenPassword(md5, salt, req.repeatNewPassword);
      var found := set id | id in users && Credentials(users, id, req.email, password);
      assert forall id :: Credentials(users, id, req.email, password) ==> id in found;
      if found == {} {
        return Err(401, Unauthorized);
      }
      if newPassword == repeatNewPassword {
        var id := Choose(found);
        SetPasswordRules(users, req.email, newPassword, id, password);
        users := SetPassword(users, req.email, newPassword);
        return Ok("Password updated");
      }
      r := Err(400, "New passwords should be same");
    }

    /** `upload_profile_picture` (POST /upload/picture/user/{user_id}): the
        picture's dimensions and readability are inputs. Every file of the
        directory that starts with the user's token and a dot is removed,
        then the new picture is saved under `token.extension`. */
    method UploadPicture(userId: int, filename: string, readable: bool, width: int, height: int)
      returns (r: Result<string>)
      modifies this`pictures
      ensures userId !in users ==> r == Err(404, "User not found") && pictures == old(pictures)
      ensures userId in users && CheckUpload(filename, readable, width, height).Err? ==>
                r == CheckUpload(filename, readable, width, height).PropagateFailure() && pictures == old(pictures)
      ensures userId in users && CheckUpload(filename, readable, width, height).Ok? ==>
                var ext := CheckUpload(filename, readable, width, height).value;
                && pictures == ReplacePicture(old(pictures), users[userId].token, ext)
                && r == Ok(SavedPath(StoredName(users[userId].token, ext)))
    {
      if userId !in users {
        return Err(404, "User not found");
      }
      var ext :- CheckUpload(filename, readable, width, height);
      var token := users[userId].token;
      var kept := RemovePictures(pictures, PicturePrefix(token));
      var name := StoredName(token, ext);
      assert kept + {name} == ReplacePicture(pictures, token, ext);
      pictures := kept + {name};
      r := Ok(SavedPath(name));
    }

    /** `add_users_to_department` (POST /departements/{department_id}/users/add). */
    method AddUsersToDepartment(token: Jwt, dept: int, ids: seq<int>, now: int) returns (r: Result<seq<Summary>>)
      modifies this`memberships
      ensures DecodeJwt(token, secretKey, now).Err? ==>
                r == DecodeJwt(token, secretKey, now).PropagateFailure() && memberships == old(memberships)
      ensures DecodeJwt(token, secretKey, now).Ok? && DecodeJwt(token, secretKey, now).value.role != "admin" ==>
                r == Err(400, "You are not allowed to add user to department") && memberships == old(memberships)
      ensures DecodeJwt(token, secretKey, now).Ok? && DecodeJwt(token, secretKey, now).value.role == "admin"
              && dept !in departments ==>
                r == Err(404, "Department not found") && memberships == old(memberships)
      ensures r.Ok? <==> DecodeJwt(token, secretKey, now).Ok? && DecodeJwt(token, secretKey, now).value.role == "admin"
                         && dept in departments
      ensures r.Ok? ==>
                && memberships == old(memberships) + Pairs(ids, dept)
                && r.value == Summaries(users, Reported(ids, MembersOf(old(memberships), dept), false))
    {
      var claims :- DecodeJwt(token, secretKey, now);
      if claims.role != "admin" {
        return Err(400, "You are not allowed to add user to department");
      }
      if dept !in departments {
        return Err(404, "Department not found");
      }
      var inserted;
      memberships, inserted := InsertMembers(memberships, dept, ids);
      var output := DescribeUsers(users, inserted);
      r := Ok(output);
    }

    /** `remove_users_from_department` (POST /departements/{department_id}/users/remove).
        Its refusal reuses the add endpoint's detail text. */
    method RemoveUsersFromDepartment(token: Jwt, dept: int, ids: seq<int>, now: int) returns (r: Result<seq<Summary>>)
      modifies this`memberships
      ensures DecodeJwt(token, secretKey, now).Err? ==>
                r == DecodeJwt(token, secretKey, now).PropagateFailure() && memberships == old(memberships)
      ensures DecodeJwt(token, secretKey, now).Ok? && DecodeJwt(token, secretKey, now).value.role != "admin" ==>
                r == Err(400, "You are not allowed to add user to department") && memberships == old(memberships)
      ensures DecodeJwt(token, secretKey, now).Ok? && DecodeJwt(token, secretKey, now).value.role == "admin"
              && dept !in departments ==>
                r == Err(404, "Department not found") && memberships == old(memberships)
      ensures r.Ok? <==> DecodeJwt(token, secretKey, now).Ok? && DecodeJwt(token, secretKey, now).value.role == "admin"
                         && dept in departments
      ensures r.Ok? ==>
                && memberships == old(memberships) - Pairs(ids, dept)
                && r.value == Summaries(users, Reported(ids, MembersOf(old(memberships), dept), true))
    {
      var claims :- DecodeJwt(token, secretKey, now);
      if claims.role != "admin" {
        return Err(400, "You are not allowed to add user to department");
      }
      if dept !in departments {
        return Err(404, "Department not found");
      }
      var deleted;
      memberships, deleted := DeleteMembers(memberships, dept, ids);
      var output := DescribeUsers(users, deleted);
      r := Ok(output);
    }

    /** `get_users_from_department` (GET /departements/{department_id}/users).
        Non-admins are refused before the projection, so every listed
        dictionary is the admin view: the non-admin projection is never
        built. */
    method GetUsersFromDepartment(token: Jwt, dept: int, now: int) returns (r: Result<seq<map<string, Value>>>)
      requires Valid()
      ensures DecodeJwt(token, secretKey, now).Err? ==> r == DecodeJwt(token, secretKey, now).PropagateFailure()
      ensures DecodeJwt(token, secretKey, now).Ok? && DecodeJwt(token, secretKey, now).value.role != "admin" ==>
                r == Err(400, "You are not allowed to remove user from department")
      ensures DecodeJwt(token, secretKey, now).Ok? && DecodeJwt(token, secretKey, now).value.role == "admin"
              && dept !in departments ==>
                r == Err(404, "Department not found")
      ensures r.Ok? <==> DecodeJwt(token, secretKey, now).Ok? && DecodeJwt(token, secretKey, now).value.role == "admin"
                         && dept in departments
      ensures r.Ok? ==>
                && |r.value| == |MembersOf(memberships, dept) * users.Keys|
                && (forall v :: v in r.value ==> v.Keys == PublicFields + AdminOnlyFields)
                && (forall u :: u in users && (u, dept) in memberships ==> View(users[u], "admin") in r.value)
                && (forall v :: v in r.value ==>
                      exists u :: u in users && (u, dept) in memberships && v == View(users[u], "admin"))
    {
      var claims :- DecodeJwt(token, secretKey, now);
      if claims.role != "admin" {
        return Err(400, "You are not allowed to remove user from department");
      }
      if dept !in departments {
        return Err(404, "Department not found");
      }
      var rows, output := ListDepartment(users, memberships, dept, claims.role);
      r := Ok(output);
    }

    /** `add_request_rh` (POST /rh/msg/add): managers and admins only; the
        owner is the user id of the body, not the caller. */
    method AddRequestRH(token: Jwt, userId: int, content: string, now: int, today: Date) returns (r: Result<string>)
      requires Valid()
      modifies this`requests, this`nextRequestId
      ensures Valid()
      ensures DecodeJwt(token, secretKey, now).Err? ==>
                r == DecodeJwt(token, secretKey, now).PropagateFailure()
                && requests == old(requests) && nextRequestId == old(nextRequestId)
      ensures DecodeJwt(token, secretKey, now).Ok? && !MayCreate(DecodeJwt(token, secretKey, now).value.role) ==>
                r == Err(400, "You are not allowed to add request rh")
                && requests == old(requests) && nextRequestId == old(nextRequestId)
      ensures r.Ok? <==> DecodeJwt(token, secretKey, now).Ok? && MayCreate(DecodeJwt(token, secretKey, now).value.role)
      ensures r.Ok? ==>
                && r.value == "Request RH created with success"
                && old(nextRequestId) !in old(requests)
                && requests == old(requests)[old(nextRequestId) := NewRequest(userId, content, today)]
                && nextRequestId == old(nextRequestId) + 1
      ensures r.Ok? ==>
                var row := requests[old(nextRequestId)];
                row.visibility && !row.close && row.history == [Entry(userId, content, today)]
    {
      var claims :- DecodeJwt(token, secretKey, now);
      if !MayCreate(claims.role) {
        return Err(400, "You are not allowed to add request rh");
      }
      requests := requests[nextRequestId := NewRequest(userId, content, today)];
      nextRequestId := nextRequestId + 1;
      r := Ok("Request RH created with success");
    }

    /** `remove_request_rh` (POST /rh/msg/remove): a soft delete, open to any
        valid session. */
    method RemoveRequestRH(token: Jwt, id: int, now: int, today: Date) returns (r: Result<string>)
      requires Valid()
      modifies this`requests
      ensures Valid()
      ensures DecodeJwt(token, secretKey, now).Err? ==>
                r == DecodeJwt(token, secretKey, now).PropagateFailure() && requests == old(requests)
      ensures DecodeJwt(token, secretKey, now).Ok? && id !in old(requests) ==>
                r == Err(404, "Request RH not found") && requests == old(requests)
      ensures r.Ok? <==> DecodeJwt(token, secretKey, now).Ok? && id in old(requests)
      ensures r.Ok? ==>
                r.value == "Request RH removed with success"
                && requests == old(requests)[id := SoftDelete(old(requests)[id], today)]
    {
      var claims :- DecodeJwt(token, secretKey, now);
      if id !in requests {
        return Err(404, "Request RH not found");
      }
      SoftDeleteRules(requests[id], today, today);
      requests := requests[id := SoftDelete(requests[id], today)];
      r := Ok("Request RH removed with success");
    }

    /** `update_request_rh` (POST /rh/msg/update): the stored history is
        read, one entry appended to it, and content and history written
        back. Open to any valid session, closed requests included; the
        entry's author is the request id. The success text is the one the
        source returns. */
    method UpdateRequestRH(token: Jwt, id: int, content: string, now: int, today: Date) returns (r: Result<string>)
      requires Valid()
      modifies this`requests
      ensures Valid()
      ensures DecodeJwt(token, secretKey, now).Err? ==>
                r == DecodeJwt(token, secretKey, now).PropagateFailure() && requests == old(requests)
      ensures DecodeJwt(token, secretKey, now).Ok? && id !in old(requests) ==>
                r == Err(404, "Request RH not found") && requests == old(requests)
      ensures r.Ok? <==> DecodeJwt(token, secretKey, now).Ok? && id in old(requests)
      ensures r.Ok? ==>
                && r.value == "Request RH removed with success"
                && requests == old(requests)[id := Edit(old(requests)[id], id, content, today)]
      ensures r.Ok? ==>
                && requests.Keys == old(requests).Keys
                && (forall k :: k in old(requests) && k != id ==> requests[k] == old(requests)[k])
                && |requests[id].history| == |old(requests)[id].history| + 1
                && requests[id].history[..|old(requests)[id].history|] == old(requests)[id].history
                && requests[id].history[|old(requests)[id].history|] == Entry(id, content, today)
                && requests[id].content == content
                && requests[id].close == old(requests)[id].close
    {
      var claims :- DecodeJwt(token, secretKey, now);
      if id !in requests {
        return Err(404, "Request RH not found");
      }
      var row := requests[id];
      var history := row.history;
      history := history + [Entry(id, content, today)];
      EditKeepsWellFormed(row, id, content, today);
      requests := requests[id := row.(content := content, lastAction := today, history := history)];
      r := Ok("Request RH removed with success");
    }

    /** `get_request_rh` (GET /rh/msg/): `scan` is the order in which the
        unordered SELECT yields the table's rows. */
    method GetRequestRH(token: Jwt, scan: seq<int>, now: int) returns (r: Result<seq<Listed>>)
      requires forall i :: 0 <= i < |scan| ==> scan[i] in requests
      requires forall id :: id in requests ==> id in scan
      requires NoDuplicates(scan)
      ensures DecodeJwt(token, secretKey, now).Err? ==> r == DecodeJwt(token, secretKey, now).PropagateFailure()
      ensures DecodeJwt(token, secretKey, now).Ok? ==>
                var claims := DecodeJwt(token, secretKey, now).value;
                r == Ok(VisibleRows(requests, scan, claims.role, claims.id))
    {
      var claims :- DecodeJwt(token, secretKey, now);
      var output := ListRequests(requests, scan, claims.role, claims.id);
      r := Ok(output);
    }
  }
}
