# ProtoRH backend — verified model

ProtoRH is a small HR backend: users register, log in for a ten-minute
session token, read and update profiles, upload a profile picture, are
grouped into departments, and file HR requests whose content history is
kept. This project models the decision and state-update logic of its
endpoints (`src/main.py`) in Dafny. The database is in memory:

- the `users` and `requests_rh` tables are maps from id to row;
- the `user_department` join table is a set of (user id, department id) pairs;
- the `departments` table is a set of ids;
- the profile-picture directory is a set of file names.

The current time (seconds) and today's date are parameters of each call.

Modules:

- `Common` (common.dfy): the handler outcome `Result` (a value, or an
  HTTP status with its detail text), optional fields, dates, and Python
  truthiness.
- `Identity` (identity.dfy):
  - the djb2-style account token: the unbounded fold, the per-step 32-bit
    fold, and the `GenToken` loop;
  - the token's decimal text;
  - the salted password digest;
  - the age computation.
- `Session` (session.dfy): issuing and decoding session tokens, with the
  "Invalid token" and "Expired token" failures.
- `Users` (users.dfy):
  - the user row;
  - `EmailTaken`, the `user_exists` lookup by email;
  - the role-dependent read projection;
  - the registration checks;
  - the update mask of `update_user` and its application;
  - the password update.
- `RequestsRH` (requests_rh.dfy): the HR request record and its create,
  edit, soft-delete and listing rules.
- `Departments` (departments.dfy): the insert, delete and lookup loops of
  the department endpoints.
- `Pictures` (pictures.dfy): the extension and size checks, the stored file
  name, and the removal of a user's earlier pictures.
- `Backend` (backend.dfy): the class `ProtoRH`. It holds the tables as
  fields. Each endpoint is a method that decodes the session, checks,
  updates the tables and returns its response or error. Its invariant
  `Valid` says:
  - emails are unique;
  - ids are below the autoincrement counters;
  - every HR request's history starts with an entry by its owner dated on
    its creation day.

## Model

| member | source | states |
|---|---|---|
| Identity.DjbFold32 | src/main.py:95-101 | the fold reduced at every step always lies in [0, 2^32) |
| Identity.MaskEveryStep | src/main.py:95-101 | masking with 0xFFFFFFFF only at the end, as the source does, equals reducing modulo 2^32 after every multiply-and-xor step |
| Identity.DjbFold | src/main.py:95-100 | the unbounded fold of Python integers grows by at most six bits per character (below 2^(15 + 6n) after n characters): the unmasked integer the loop carries stays linear in size in the input's length |
| Identity.GenToken | src/main.py:84-102 | the loop's result is the djb2 fold of email + firstname + lastname + salt masked to 32 bits; it equals the per-step 32-bit fold and lies in [0, 2^32) |
| Identity.DecimalString | src/main.py:215 | the token inserted into the `String` token column is stored as its decimal text: non-empty and made of digits |
| Identity.DecimalRoundTrip | src/main.py:215 | reading the stored decimal text of a token back gives the token, so the text identifies the token |
| Identity.CalculateAge | src/main.py:69-81 | the age is the year difference or one less, and is never negative when the birthday is not after today |
| Identity.AgeIsCompletedYears | src/main.py:69-81 | the computed age is the number of completed years: that anniversary is on or before today, the next one is after |
| Identity.AgeYearDifference | src/main.py:78-81 | the age is the year difference minus 1 exactly when today's (month, day) precedes the birthday's; it is ≥ 0 when the birthday is not after today |
| Session.GenJwt | src/main.py:123-143 | an issued token carries id, email and role, is signed with the server key, and expires 600 seconds after issue |
| Session.DecodeJwt | src/main.py:294-299 | decoding succeeds exactly for a token signed with the key whose expiry is still ahead, returning its claims; otherwise 401, "Expired token" exactly when the signature is good but expired, "Invalid token" exactly when it is not |
| Session.IssueThenDecode | src/main.py:134-139 | a token decoded with its key within ten minutes of issue gives back the issued claims |
| Session.ExpiredIsNotInvalid | src/main.py:294-296 | after ten minutes an issued token is reported expired, not invalid |
| Users.View | src/main.py:268-290 | the non-admin view has exactly email, firstname, lastname, age, registration_date, role; the admin view adds birthday_date, adress, postal_code, meta, token; password is in neither; each value is the row's column |
| Users.AdminViewExtendsPublic | src/main.py:268-290 | the admin view is the public view plus exactly the five admin-only columns, agreeing where they overlap |
| Users.CheckRegistration | src/main.py:195-202 | registration is accepted exactly when email ≤ 320 chars, password ≥ 8 chars and email free; the refusals are 400 in the order too-long email, short password, taken email |
| Users.NewUserRow | src/main.py:204-217 | the inserted row carries the request's fields, the password digest, the computed age, today's registration date, the token, meta "{}" and role "user" |
| Users.PatchFor | src/main.py:312-350 | a refusal is 401 exactly when a non-admin supplies an id, a name or a role, and 400 otherwise; an accepted mask has a target row exactly for an admin, and any email it carries is non-empty, at most 320 characters and free |
| Users.NonAdminUpdateRules | src/main.py:325-334 | a non-admin supplying id, then a name, then a role is refused with 401 in that order; an accepted non-admin mask binds no target row and sets no name or role |
| Users.AdminUpdateRules | src/main.py:314-324 | an admin is never refused with 401; the target is the request id when truthy, otherwise the session id; truthy names and role are carried |
| Users.UpdateFieldRules | src/main.py:336-350 | falsy email, adress and postal code are left out; a birthday is carried together with the age computed from it |
| Users.UpdateEmailRules | src/main.py:336-342 | for a caller past the 401 checks, a truthy email over 320 characters gets 400 "Too long email adress" before the taken check; an accepted mask never carries a taken email; the caller's own (non-empty, ≤ 320-char) email gets 400 "Email already taken" |
| Users.ApplyPatch | src/main.py:352-356 | each column present in the mask takes the mask's value and each absent column keeps the row's; password, token, meta and registration date are never touched; an empty mask leaves the row unchanged |
| Users.UpdateWhere | src/main.py:352-356 | the UPDATE changes only the target row, which receives the mask; a missing target changes nothing |
| Users.ApplyPatchKeepsEmailsUnique | src/main.py:336-342 | applying a mask whose email is free keeps emails unique |
| Users.SetPassword | src/main.py:389-396 | every row with the email gets the new digest with its other columns kept, every other row is unchanged, and no row is added or removed |
| Users.SetPasswordRules | src/main.py:388-397 | after the password update the new password logs in for the account, the old one no longer does unless the digests agree, ids are unchanged and emails stay unique |
| RequestsRH.NewRequest | src/main.py:665-684 | a new request's history starts with its owner and creation date |
| RequestsRH.Edit | src/main.py:764-773 | an edit appends exactly one entry (author the request id, the new content, today) after the unchanged history, replaces content and last action, and keeps owner, registration date, visibility, close and deletion date |
| RequestsRH.SoftDelete | src/main.py:723-731 | a removal hides and closes the request and dates the action and the deletion, keeping owner, content, registration date and history |
| RequestsRH.EditKeepsWellFormed | src/main.py:749-775 | an edit keeps the history starting with an entry by the owner dated on the creation day |
| RequestsRH.EditsAreAppendOnly | src/main.py:762-775 | after N edits the history has grown by exactly N, earlier entries are unchanged, each new entry records its edit with the request id as author, the content is the last edit's, and owner, close, visibility and deletion date are untouched |
| RequestsRH.SoftDeleteRules | src/main.py:708-731 | a removal hides and closes the request, dates the deletion, keeps content, history and owner, and repeating it only moves the dates |
| RequestsRH.Visible | src/main.py:798-824 | a closed request is visible to admins only; a manager sees exactly the open requests |
| RequestsRH.VisibleRows | src/main.py:797-836 | the listing is no longer than the scan, and every listed row is a scanned row of the table, with its stored record, visible to the caller |
| RequestsRH.VisibleRowsExact | src/main.py:797-836 | a row is listed exactly when the caller is admin, or a manager and it is open, or its owner and it is open; an admin gets every row in scan order |
| RequestsRH.ListRequests | src/main.py:795-838 | the loop returns the visible rows in scan order |
| Departments.Pairs | src/main.py:489-494 | the pairs named by a list of ids are exactly those ids with the department |
| Departments.Reported | src/main.py:487-495 | the reported ids are no more than those asked for, and each was asked for and had the wanted prior membership |
| Departments.ReportedExactly | src/main.py:487-497 | an id is reported exactly when it was asked for and its prior membership is the one wanted (absent for add, present for remove), and none twice |
| Departments.InsertMembers | src/main.py:487-497 | the join table gains exactly the requested pairs, and the reported ids are the first occurrences of those not already members |
| Departments.DeleteMembers | src/main.py:550-559 | the join table loses exactly the requested pairs, and the reported ids are the first occurrences of those that were members |
| Departments.Summaries | src/main.py:503-509 | there are no more summaries than ids, and each is for a requested id that names a user |
| Departments.SummariesExact | src/main.py:499-511 | a summary is returned exactly for a reported id that names a user, carrying that user's id, email and names |
| Departments.DescribeUsers | src/main.py:503-509 | the lookup loop returns the summaries of the reported ids that name a user, in order |
| Departments.ListDepartment | src/main.py:606-632 | the join yields each member present in the users table exactly once and nothing else; the output has one dictionary per row, the view of that row for the caller's role, and every listed dictionary is a member's view |
| Pictures.Extension | src/main.py:415 | the extension is the dot-free suffix after the last dot, or the whole name without a dot |
| Pictures.CheckUpload | src/main.py:413-426 | an upload is accepted exactly when the extension is gif/png/jpg/jpeg, the file is readable, and not both sides exceed 800; every refusal is a bare 400 |
| Pictures.StoredNameKeepsExtension | src/main.py:432 | splitting the stored name on dots gives back the uploaded extension |
| Pictures.PrefixDeterminesToken | src/main.py:428-432 | a stored name that starts with a token's prefix was stored for that token |
| Pictures.PrefixesSeparateTokens | src/main.py:428-432 | an upload never removes another token's stored picture |
| Pictures.RemovePictures | src/main.py:428-430 | the removal loop keeps exactly the files that do not start with the user's prefix |
| Pictures.ReplacePicture | src/main.py:428-432 | after an upload the directory holds the new picture, no other file with the user's prefix, and every other file it held |
| Backend.ProtoRH.constructor | src/main.py:44-45 | the users, requests and join tables start empty, the departments and picture directory are given, and the invariant holds |
| Backend.ProtoRH.CreateUser | src/main.py:185-221 | a registration passing the checks inserts the new row under a fresh id, with role "user", meta "{}", the password digest, the computed age and the 32-bit token; a refusal changes nothing |
| Backend.ProtoRH.Connect | src/main.py:228-246 | a session token is issued exactly when some row has the email and the password's digest, for that row's id and role; otherwise a bare 401 |
| Backend.ProtoRH.GetUser | src/main.py:252-299 | a session failure is passed on, an unknown id is 404, otherwise the row's view for the caller's role |
| Backend.ProtoRH.UpdateUser | src/main.py:305-364 | the mask built field by field equals the rule function's; a refusal or a mask without a target changes nothing (the latter is a 500), otherwise exactly the target row is updated; emails stay unique |
| Backend.ProtoRH.UpdatePassword | src/main.py:370-400 | no matching login is a bare 401, differing new digests a 400, otherwise every row with the email gets the new digest |
| Backend.ProtoRH.UploadPicture | src/main.py:406-434 | an unknown user is 404, a refused file a 400 with nothing changed, otherwise the directory is replaced and the saved path returned |
| Backend.ProtoRH.AddUsersToDepartment | src/main.py:459-518 | non-admins get 400, unknown departments 404, otherwise the pairs are inserted and the newly inserted users described |
| Backend.ProtoRH.RemoveUsersFromDepartment | src/main.py:524-580 | non-admins get 400 (with the add endpoint's text), unknown departments 404, otherwise the pairs are deleted and the removed users described |
| Backend.ProtoRH.GetUsersFromDepartment | src/main.py:586-652 | non-admins get 400 before any projection, unknown departments 404; otherwise the list has one entry per present member, holds the admin view of each member, and every entry is the admin view of some member |
| Backend.ProtoRH.AddRequestRH | src/main.py:658-695 | only managers and admins create; the new request is visible, open, with one history entry by the owner |
| Backend.ProtoRH.RemoveRequestRH | src/main.py:701-739 | any session may remove; an unknown id is 404, otherwise the request is soft-deleted and nothing else changes |
| Backend.ProtoRH.UpdateRequestRH | src/main.py:742-783 | an unknown id is 404, otherwise the history grows by one entry authored by the request id, content is replaced, `close` is neither checked nor changed, and no other request changes |
| Backend.ProtoRH.GetRequestRH | src/main.py:786-846 | a session failure is passed on, otherwise the rows visible to the caller, in the order the table yields them (each id once) |

## Left out

- Identity.GenPassword: MD5 is not modelled. The digest is a deterministic function given as a parameter, so only equality of digests matters.
- Session.DecodeJwt: HS256 signing is abstract. A token is either claims sealed with a key or unparseable text, and a token signed with another key counts as invalid. The library's other rejections (such as a header naming no algorithm or one other than HS256) are not `DecodeError`s, escape the handlers' `except` clauses and give a 500 in the source; the model answers them, like any unparseable token, with 401 "Invalid token".
- Times are whole seconds. The sub-second part of `exp` is not modelled.
- Characters are Dafny `char`s. A code point in the surrogate range cannot be one, so `ord` is not modelled for it.
- HTTP routing, async, the SQL engine and database creation are not modelled. The SQL queries become map and set operations.
- The reading of `.env` is not modelled. The salt and the JWT secret are fixed when `ProtoRH` is constructed.
- Database failures are not modelled: connection errors, `one_or_none` on duplicate rows, and integers outside the 32-bit `INTEGER` columns (see the three id lines below). Duplicate emails cannot arise under `Valid`.
- Backend.ProtoRH.UpdateUser: the non-admin path never binds `:id`, so the UPDATE fails. The model answers 500 "Internal Server Error" and changes nothing. It does not invent a self-update. Ids are unbounded integers: an admin's `id` outside the 32-bit `INTEGER` range [-2^31, 2^31) makes PostgreSQL reject the statement ("integer out of range"), which the source answers with a 500 after rolling back, while the model accepts it and updates no row.
- Backend.ProtoRH.AddUsersToDepartment: a user id outside the 32-bit `INTEGER` range of `user_department.user_id` makes the INSERT fail, so the source answers 500 and the transaction inserts no pair at all; the model has unbounded ids and inserts every requested pair.
- Backend.ProtoRH.AddRequestRH: a `user_id` outside the 32-bit `INTEGER` range of `requests_rh.user_id` makes the INSERT fail with a 500 and a rollback in the source; the model creates the request.
- Users.User: `birthday_date` is a text column in the table. The model keeps the date.
- Backend.ProtoRH.UploadPicture: PIL decoding is not modelled. Readability, width and height are inputs, and an undecodable image (a 500 in the source) is not modelled.
- Backend.ProtoRH.UploadPicture: the file system calls are not modelled: listing, removal, `makedirs` and writing the bytes. The directory is a set of names, and the picture's content is not kept.
- Backend.ProtoRH.GetRequestRH: the SELECT's row order is a parameter `scan`, listing each of the table's ids exactly once. The response's JSON encoding of rows and history is not modelled.
- Users.View: `meta` is a `JSON` column, so `get_user` and the department listing return the decoded object (`{}` for a new user). The model keeps it as its JSON text, `Text("{}")`.
- Backend.ProtoRH.GetUsersFromDepartment: the join yields rows in an unspecified order. The contract states which rows are listed and that each appears once, not their order.
- `get_profile_picture` and `hello` are not part of this model. Neither changes or decides anything beyond a directory lookup.
- Concurrent requests are not modelled: the HR history update is a read-modify-write without locking. Each call runs alone.
