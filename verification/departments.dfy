/** Department membership: the user_department join table as a set of
    (user id, department id) pairs, and the loops of the add, remove and
    list endpoints. */
module Departments {
  import opened Common
  import opened Users

  /** A row of user_department: (user_id, department_id). The table's
      unique constraint makes it a set. */
  type Pair = (int, int)

  /** The users the join table places in a department. */
  function MembersOf(members: set<Pair>, dept: int): (s: set<int>)
    ensures forall u :: u in s <==> (u, dept) in members
  {
    set p | p in members && p.1 == dept :: p.0
  }

  /** No id is listed twice. */
  ghost predicate NoDuplicates(s: seq<int>) {
    forall i, j :: 0 <= i < j < |s| ==> s[i] != s[j]
  }

  /** The ids of `ids`, in order of first occurrence, whose membership in
      `present` is `wanted`: the ids the add loop (wanted = false) or the
      remove loop (wanted = true) reports. */
  function Reported(ids: seq<int>, present: set<int>, wanted: bool): (r: seq<int>)
    ensures |r| <= |ids|
    ensures forall u :: u in r ==> u in ids && (u in present) == wanted
    decreases |ids|
  {
    if ids == [] then []
    else
      var init, u := ids[..|ids| - 1], ids[|ids| - 1];
      var rest := Reported(init, present, wanted);
      if (u in present) == wanted && u !in init then rest + [u] else rest
  }

  /** An id is reported exactly when it was asked for and its membership is
      the wanted one, and none is reported twice. */
  lemma {:induction false} ReportedExactly(ids: seq<int>, present: set<int>, wanted: bool)
    ensures forall u :: u in Reported(ids, present, wanted) <==> u in ids && (u in present) == wanted
    ensures NoDuplicates(Reported(ids, present, wanted))
    decreases |ids|
  {
    if ids != [] {
      var init := ids[..|ids| - 1];
      ReportedExactly(init, present, wanted);
      assert forall x :: x in ids <==> x in init || x == ids[|ids| - 1];
    }
  }

  /** The join-table rows naming each id of `ids` in department `dept`. */
  function Pairs(ids: seq<int>, dept: int): (r: set<Pair>)
    ensures forall p :: p in r <==> p.1 == dept && p.0 in ids
    decreases |ids|
  {
    if ids == [] then {}
    else
      var init := ids[..|ids| - 1];
      assert forall u :: u in ids <==> u in init || u == ids[|ids| - 1];
      Pairs(init, dept) + {(ids[|ids| - 1], dept)}
  }

  /** The first loop of `add_users_to_department`: insert each pair with ON
      CONFLICT DO NOTHING and collect the ids the insert returned. */
  method InsertMembers(members: set<Pair>, dept: int, ids: seq<int>) returns (table: set<Pair>, inserted: seq<int>)
    ensures table == members + Pairs(ids, dept)
    ensures inserted == Reported(ids, MembersOf(members, dept), false)
  {
    table, inserted := members, [];
    for i := 0 to |ids|
      invariant table == members + Pairs(ids[..i], dept)
      invariant inserted == Reported(ids[..i], MembersOf(members, dept), false)
    {
      var u := ids[i];
      assert ids[..i + 1][..i] == ids[..i];
      assert (u, dept) in table <==> u in MembersOf(members, dept) || u in ids[..i];
      if (u, dept) !in table {
        table := table + {(u, dept)};
        inserted := inserted + [u];
      }
    }
    assert ids[..|ids|] == ids;
  }

  /** The first loop of `remove_users_from_department`: delete each pair and
      collect the ids whose delete removed a row. */
  method DeleteMembers(members: set<Pair>, dept: int, ids: seq<int>) returns (table: set<Pair>, deleted: seq<int>)
    ensures table == members - Pairs(ids, dept)
    ensures deleted == Reported(ids, MembersOf(members, dept), true)
  {
    table, deleted := members, [];
    for i := 0 to |ids|
      invariant table == members - Pairs(ids[..i], dept)
      invariant deleted == Reported(ids[..i], MembersOf(members, dept), true)
    {
      var u := ids[i];
      assert ids[..i + 1][..i] == ids[..i];
      assert (u, dept) in table <==> u in MembersOf(members, dept) && u !in ids[..i];
      if (u, dept) in table {
        table := table - {(u, dept)};
        deleted := deleted + [u];
      }
    }
    assert ids[..|ids|] == ids;
  }

  /** The columns the add and remove endpoints return for a user. */
  datatype Summary = Summary(id: int, email: string, firstname: string, lastname: string)

  /** The summaries of the ids, in order, that name an existing user. */
  function Summaries(users: Table, ids: seq<int>): (r: seq<Summary>)
    ensures |r| <= |ids|
    ensures forall s :: s in r ==> s.id in ids && s.id in users
    decreases |ids|
  {
    if ids == [] then []
    else
      var rest, u := Summaries(users, ids[..|ids| - 1]), ids[|ids| - 1];
      if u in users then rest + [Summary(u, users[u].email, users[u].firstname, users[u].lastname)] else rest
  }

  /** A summary is returned exactly for the reported ids that name a user,
      and carries that user's columns. */
  lemma {:induction false} SummariesExact(users: Table, ids: seq<int>)
    ensures forall s :: s in Summaries(users, ids) <==>
              s.id in ids && s.id in users
              && s == Summary(s.id, users[s.id].email, users[s.id].firstname, users[s.id].lastname)
    ensures |Summaries(users, ids)| <= |ids|
    decreases |ids|
  {
    if ids != [] {
      var init := ids[..|ids| - 1];
      SummariesExact(users, init);
      assert forall x :: x in ids <==> x in init || x == ids[|ids| - 1];
    }
  }

  /** The second loop of the add and remove endpoints: look each reported id
      up and keep the users found. */
  method DescribeUsers(users: Table, ids: seq<int>) returns (output: seq<Summary>)
    ensures output == Summaries(users, ids)
  {
    output := [];
    for i := 0 to |ids|
      invariant output == Summaries(users, ids[..i])
    {
      assert ids[..i + 1][..i] == ids[..i];
      var u := ids[i];
      if u in users {
        output := output + [Summary(u, users[u].email, users[u].firstname, users[u].lastname)];
      }
    }
    assert ids[..|ids|] == ids;
  }

  /** `get_users_from_department`: the rows of users JOIN user_department for
      one department, in the order the join yields them, and the dictionary
      built for each row with the caller's role. */
  method ListDepartment(users: Table, members: set<Pair>, dept: int, role: string)
    returns (rows: seq<int>, output: seq<map<string, Value>>)
    ensures forall u :: u in rows <==> u in users && (u, dept) in members
    ensures NoDuplicates(rows)
    ensures |output| == |rows| == |MembersOf(members, dept) * users.Keys|
    ensures forall k :: 0 <= k < |rows| ==> rows[k] in users && output[k] == View(users[rows[k]], role)
    ensures forall u :: u in users && (u, dept) in members ==> View(users[u], role) in output
    ensures forall v :: v in output ==> exists u :: u in users && (u, dept) in members && v == View(users[u], role)
  {
    var remaining := MembersOf(members, dept) * users.Keys;
    rows, output := [], [];
    while remaining != {}
      invariant remaining <= MembersOf(members, dept) * users.Keys
      invariant forall u :: u in rows <==> u in users && (u, dept) in members && u !in remaining
      invariant NoDuplicates(rows)
      invariant |output| == |rows| == |MembersOf(members, dept) * users.Keys| - |remaining|
      invariant forall k :: 0 <= k < |rows| ==> rows[k] in users && output[k] == View(users[rows[k]], role)
      invariant forall u :: u in rows ==> View(users[u], role) in output
      decreases remaining
    {
      var u := Choose(remaining);
      rows, output := rows + [u], output + [View(users[u], role)];
      remaining := remaining - {u};
    }
    ListedAreMembers(users, members, dept, role, rows, output);
  }

  /** Each listed dictionary is the view of a member: the index-wise fact
      restated per dictionary. */
  lemma ListedAreMembers(users: Table, members: set<Pair>, dept: int, role: string,
                         rows: seq<int>, output: seq<map<string, Value>>)
    requires forall u :: u in rows ==> u in users && (u, dept) in members
    requires |output| == |rows|
    requires forall k :: 0 <= k < |rows| ==> rows[k] in users && output[k] == View(users[rows[k]], role)
    ensures forall v :: v in output ==> exists u :: u in users && (u, dept) in members && v == View(users[u], role)
  {
    forall v | v in output
      ensures exists u :: u in users && (u, dept) in members && v == View(users[u], role)
    {
      var k :| 0 <= k < |output| && output[k] == v;
      var u := rows[k];
      assert u in rows;
      assert u in users && (u, dept) in members && v == View(users[u], role);
    }
  }
}
