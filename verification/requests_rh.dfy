/** HR requests: the record, its content history, and the rules of the
    create, update, soft-delete and list endpoints. */
module RequestsRH {
  import opened Common

  /** One entry of `content_history`. */
  datatype Entry = Entry(author: int, content: string, date: Date)

  /** A row of the requests_rh table (its id is the key of the table map). */
  datatype RequestRH = RequestRH(
    userId: int,
    content: string,
    registrationDate: Date,
    visibility: bool,
    close: bool,
    lastAction: Date,
    history: seq<Entry>,
    deleteDate: Option<Date>)

  /** The requests_rh table: id to row. */
  type Table = map<int, RequestRH>

  /** The roles allowed to create an HR request. */
  predicate MayCreate(role: string) {
    role == "manager" || role == "admin"
  }

  /** The history of a record starts with an entry by its owner dated on
      the day the record was created. */
  ghost predicate WellFormed(r: RequestRH) {
    |r.history| >= 1 && r.history[0].author == r.userId && r.history[0].date == r.registrationDate
  }

  /** The row `add_request_rh` inserts: visible, open, with a history of one
      entry authored by the owner. */
  function NewRequest(userId: int, content: string, today: Date): (r: RequestRH)
    ensures WellFormed(r)
  {
    RequestRH(userId, content, today, true, false, today, [Entry(userId, content, today)], None)
  }

  /** The row after `update_request_rh`: content replaced and one entry
      appended. The entry's author is the id of the REQUEST, as in the
      source, and nothing looks at `close`. */
  function Edit(r: RequestRH, requestId: int, content: string, today: Date): (e: RequestRH)
    ensures |e.history| == |r.history| + 1 && e.history[..|r.history|] == r.history
    ensures e.history[|r.history|] == Entry(requestId, content, today)
    ensures e.content == content && e.lastAction == today
    ensures e.userId == r.userId && e.registrationDate == r.registrationDate && e.visibility == r.visibility
            && e.close == r.close && e.deleteDate == r.deleteDate
  {
    r.(content := content, lastAction := today, history := r.history + [Entry(requestId, content, today)])
  }

  /** An edit keeps the record well formed. */
  lemma EditKeepsWellFormed(r: RequestRH, requestId: int, content: string, today: Date)
    requires WellFormed(r)
    ensures WellFormed(Edit(r, requestId, content, today))
  {
  }

  /** A series of edits, each a new content and the date it was made. */
  function EditAll(r: RequestRH, requestId: int, edits: seq<(string, Date)>): RequestRH
    decreases |edits|
  {
    if edits == [] then r
    else EditAll(Edit(r, requestId, edits[0].0, edits[0].1), requestId, edits[1..])
  }

  /** The history is append-only: after N edits it has grown by exactly N
      entries, the earlier entries are unchanged, the new ones record each
      edit in order with the request id as author, and the content is the
      last edit's. Owner, visibility, `close` and deletion date are left
      alone. */
  lemma {:induction false} EditsAreAppendOnly(r: RequestRH, requestId: int, edits: seq<(string, Date)>)
    ensures |EditAll(r, requestId, edits).history| == |r.history| + |edits|
    ensures EditAll(r, requestId, edits).history[..|r.history|] == r.history
    ensures forall i :: 0 <= i < |edits| ==>
              EditAll(r, requestId, edits).history[|r.history| + i] == Entry(requestId, edits[i].0, edits[i].1)
    ensures edits != [] ==> EditAll(r, requestId, edits).content == edits[|edits| - 1].0
    ensures EditAll(r, requestId, edits).userId == r.userId
    ensures EditAll(r, requestId, edits).close == r.close
    ensures EditAll(r, requestId, edits).visibility == r.visibility
    ensures EditAll(r, requestId, edits).deleteDate == r.deleteDate
    decreases |edits|
  {
    if edits != [] {
      var r' := Edit(r, requestId, edits[0].0, edits[0].1);
      EditsAreAppendOnly(r', requestId, edits[1..]);
      var final := EditAll(r', requestId, edits[1..]);
      assert final == EditAll(r, requestId, edits);
      assert final.history[..|r'.history|] == r'.history;
      assert final.history[..|r.history|] == r'.history[..|r.history|];
      forall i | 0 <= i < |edits|
        ensures final.history[|r.history| + i] == Entry(requestId, edits[i].0, edits[i].1)
      {
        if i == 0 {
          assert final.history[|r.history|] == r'.history[|r.history|];
        } else {
          assert edits[1..][i - 1] == edits[i];
        }
      }
    }
  }

  /** The row after `remove_request_rh`: hidden, closed and dated, with its
      content and history untouched. */
  function SoftDelete(r: RequestRH, today: Date): (d: RequestRH)
    ensures !d.visibility && d.close && d.lastAction == today && d.deleteDate == Some(today)
    ensures d.userId == r.userId && d.content == r.content && d.registrationDate == r.registrationDate
            && d.history == r.history
  {
    r.(visibility := false, close := true, lastAction := today, deleteDate := Some(today))
  }

  /** Soft deletion keeps content, history and owner; applying it again only
      moves the dates. */
  lemma SoftDeleteRules(r: RequestRH, today: Date, later: Date)
    ensures SoftDelete(r, today).content == r.content
    ensures SoftDelete(r, today).history == r.history
    ensures SoftDelete(r, today).userId == r.userId
    ensures SoftDelete(r, today).close && !SoftDelete(r, today).visibility
    ensures SoftDelete(r, today).deleteDate == Some(today)
    ensures SoftDelete(SoftDelete(r, today), later) == SoftDelete(r, later)
    ensures WellFormed(r) ==> WellFormed(SoftDelete(r, today))
  {
  }

  /** The filter of `get_request_rh`: admins see every row, managers every
      open row, anyone else the open rows they own. */
  predicate Visible(role: string, callerId: int, r: RequestRH)
    ensures r.close ==> (Visible(role, callerId, r) <==> role == "admin")
    ensures role == "manager" ==> (Visible(role, callerId, r) <==> !r.close)
  {
    role == "admin" || (role == "manager" && !r.close) || (callerId == r.userId && !r.close)
  }

  /** A listed row with its id. */
  datatype Listed = Listed(id: int, record: RequestRH)

  /** The rows of `scan`, in that order, that the caller may see. */
  function VisibleRows(requests: Table, scan: seq<int>, role: string, callerId: int): (rows: seq<Listed>)
    requires forall i :: 0 <= i < |scan| ==> scan[i] in requests
    ensures |rows| <= |scan|
    ensures forall l :: l in rows ==> l.id in scan && l.id in requests && l.record == requests[l.id]
                                      && Visible(role, callerId, l.record)
    decreases |scan|
  {
    if scan == [] then []
    else
      var rest := VisibleRows(requests, scan[..|scan| - 1], role, callerId);
      var id := scan[|scan| - 1];
      if Visible(role, callerId, requests[id]) then rest + [Listed(id, requests[id])] else rest
  }

  /** A row is listed exactly when it is scanned and visible to the caller;
      an admin gets every scanned row, in scan order. */
  lemma {:induction false} VisibleRowsExact(requests: Table, scan: seq<int>, role: string, callerId: int)
    requires forall i :: 0 <= i < |scan| ==> scan[i] in requests
    ensures forall l :: l in VisibleRows(requests, scan, role, callerId) <==>
              l.id in scan && l.id in requests && l.record == requests[l.id] && Visible(role, callerId, l.record)
    ensures role == "admin" ==>
              VisibleRows(requests, scan, role, callerId) == seq(|scan|, i requires 0 <= i < |scan| => Listed(scan[i], requests[scan[i]]))
    decreases |scan|
  {
    if scan != [] {
      var init := scan[..|scan| - 1];
      VisibleRowsExact(requests, init, role, callerId);
      assert forall x :: x in scan <==> x in init || x == scan[|scan| - 1];
    }
  }

  /** `get_request_rh`: the loop over the rows that builds `output`. */
  method ListRequests(requests: Table, scan: seq<int>, role: string, callerId: int) returns (output: seq<Listed>)
    requires forall i :: 0 <= i < |scan| ==> scan[i] in requests
    ensures output == VisibleRows(requests, scan, role, callerId)
  {
    output := [];
    for i := 0 to |scan|
      invariant output == VisibleRows(requests, scan[..i], role, callerId)
    {
      assert scan[..i + 1][..i] == scan[..i];
      var row := requests[scan[i]];
      if Visible(role, callerId, row) {
        output := output + [Listed(scan[i], row)];
      }
    }
    assert scan[..|scan|] == scan;
  }
}
