/**
 * The Swing demo of the instructor's review console: a reviewer request
 * with a mutable status and instructor note, and the page that shows one row
 * per request with a label, a note field and Approve / Deny buttons.
 *
 * The widgets are left out. A row's text field is the `noteText` parameter of
 * the button actions, and a row's label is the string stored in `labels`.
 */
module InstructorDemo {

  datatype Option<T> = None | Some(value: T)

  /** Status values this demo writes, spelt as the demo spells them. */
  const Pending: string := "pending"
  const Approved: string := "approved"
  const Denied: string := "denied"

  /** Text between the student name and the student id in a label. */
  const OpenId: string := " ("
  /** Text between the student id and the status in a label. */
  const CloseId: string := ") - "

  /**
   * Reads the status back out of a row label, given the student name and id
   * it was built from; `None` when the label does not have that shape.
   */
  function StatusFromLabel(name: string, id: string, text: string): (r: Option<string>)
    ensures r.Some? ==> text == name + OpenId + id + CloseId + r.value
  {
    var head := name + OpenId + id + CloseId;
    if |head| <= |text| && text[..|head|] == head then
      assert text == head + text[|head|..];
      Some(text[|head|..])
    else
      None
  }

  /** A student's request to become a reviewer, as the demo holds it. */
  class ReviewerRequest {
    var studentName: string
    var studentId: string
    var status: string
    var instructorNote: string

    /** A new request is pending and carries no note. */
    constructor (studentName: string, studentId: string)
      ensures this.studentName == studentName && this.studentId == studentId
      ensures status == Pending && instructorNote == ""
    {
      this.studentName := studentName;
      this.studentId := studentId;
      this.status := Pending;
      this.instructorNote := "";
    }

    method GetStudentName() returns (r: string)
      ensures r == studentName
    {
      r := studentName;
    }

    method GetStudentId() returns (r: string)
      ensures r == studentId
    {
      r := studentId;
    }

    method GetStatus() returns (r: string)
      ensures r == status
    {
      r := status;
    }

    method GetInstructorNote() returns (r: string)
      ensures r == instructorNote
    {
      r := instructorNote;
    }

    /** Overwrites the status with any string; nothing else changes. */
    method SetStatus(status: string)
      modifies this`status
      ensures this.status == status
      ensures studentName == old(studentName) && studentId == old(studentId)
      ensures instructorNote == old(instructorNote)
    {
      this.status := status;
    }

    /** Overwrites the note with any string; nothing else changes. */
    method SetInstructorNote(instructorNote: string)
      modifies this`instructorNote
      ensures this.instructorNote == instructorNote
      ensures studentName == old(studentName) && studentId == old(studentId)
      ensures status == old(status)
    {
      this.instructorNote := instructorNote;
    }

    /**
     * The row label: name, id in parentheses, then the current status.
     * The status can always be read back from it.
     */
    function ToString(): (r: string)
      reads this
      ensures StatusFromLabel(studentName, studentId, r) == Some(status)
      ensures |r| == |studentName| + |studentId| + |status| + 6
    {
      var head := studentName + OpenId + studentId + CloseId;
      var r := head + status;
      assert r[..|head|] == head;
      r
    }
  }

  /**
   * Two requests for the same student show the same label exactly when they
   * have the same status, so the label text changes whenever the status does.
   */
  lemma LabelDeterminesStatus(a: ReviewerRequest, b: ReviewerRequest)
    requires a.studentName == b.studentName && a.studentId == b.studentId
    ensures a.ToString() == b.ToString() <==> a.status == b.status
  {
  }

  /** The label text of every row, in list order: the body of the page's row loop. */
  method RenderLabels(requests: seq<ReviewerRequest>) returns (labels: seq<string>)
    ensures |labels| == |requests|
    ensures forall j :: 0 <= j < |requests| ==> labels[j] == requests[j].ToString()
  {
    labels := [];
    for k := 0 to |requests|
      invariant |labels| == k
      invariant forall j :: 0 <= j < k ==> labels[j] == requests[j].ToString()
    {
      labels := labels + [requests[k].ToString()];
    }
  }

  /**
   * The instructor's page. Row j shows `requests[j]` with label `labels[j]`;
   * the Approve and Deny buttons of row j act on that element only.
   */
  class InstructorHomePage {
    const requests: seq<ReviewerRequest>
    var labels: seq<string>

    ghost predicate Valid()
      reads this
    {
      |labels| == |requests|
    }

    /** Every row's label shows its request's current state. */
    ghost predicate Synced()
      reads this, requests
    {
      Valid() && forall j :: 0 <= j < |requests| ==> labels[j] == requests[j].ToString()
    }

    /** No request object appears in two rows. */
    ghost predicate Distinct()
      reads this
    {
      forall j, k :: 0 <= j < k < |requests| ==> requests[j] != requests[k]
    }

    /** One row per request, in list order; the requests themselves are not touched. */
    constructor (requests: seq<ReviewerRequest>)
      ensures this.requests == requests
      ensures Synced()
    {
      var labels := RenderLabels(requests);
      this.requests := requests;
      this.labels := labels;
    }

    /**
     * Row i's button: set the status, copy the note field into the note and
     * refresh row i's label. Only request i and label i change.
     */
    method Decide(i: nat, decision: string, noteText: string)
      requires Valid() && i < |requests|
      modifies this`labels, requests[i]
      ensures Valid()
      ensures requests[i].status == decision && requests[i].instructorNote == noteText
      ensures requests[i].studentName == old(requests[i].studentName)
      ensures requests[i].studentId == old(requests[i].studentId)
      ensures labels == old(labels)[i := requests[i].ToString()]
      ensures old(Synced()) && Distinct() ==> Synced()
    {
      var req := requests[i];
      req.SetStatus(decision);
      req.SetInstructorNote(noteText);
      labels := labels[i := req.ToString()];
    }

    /** The Approve button of row i. */
    method Approve(i: nat, noteText: string)
      requires Valid() && i < |requests|
      modifies this`labels, requests[i]
      ensures Valid()
      ensures requests[i].status == Approved && requests[i].instructorNote == noteText
      ensures requests[i].studentName == old(requests[i].studentName)
      ensures requests[i].studentId == old(requests[i].studentId)
      ensures labels == old(labels)[i := requests[i].ToString()]
      ensures forall j :: 0 <= j < |requests| && requests[j] != requests[i] ==>
        requests[j].status == old(requests[j].status) &&
        requests[j].instructorNote == old(requests[j].instructorNote)
      ensures old(Synced()) && Distinct() ==> Synced()
    {
      Decide(i, Approved, noteText);
    }

    /** The Deny button of row i. */
    method Deny(i: nat, noteText: string)
      requires Valid() && i < |requests|
      modifies this`labels, requests[i]
      ensures Valid()
      ensures requests[i].status == Denied && requests[i].instructorNote == noteText
      ensures requests[i].studentName == old(requests[i].studentName)
      ensures requests[i].studentId == old(requests[i].studentId)
      ensures labels == old(labels)[i := requests[i].ToString()]
      ensures forall j :: 0 <= j < |requests| && requests[j] != requests[i] ==>
        requests[j].status == old(requests[j].status) &&
        requests[j].instructorNote == old(requests[j].instructorNote)
      ensures old(Synced()) && Distinct() ==> Synced()
    {
      Decide(i, Denied, noteText);
    }
  }

  /**
   * Decisions are not guarded: Approve then Deny on one row leaves the row
   * denied with the second note, and its label says so.
   */
  method ApproveThenDeny(page: InstructorHomePage, i: nat, first: string, second: string)
    requires page.Valid() && i < |page.requests|
    modifies page`labels, page.requests[i]
    ensures page.requests[i].status == Denied && page.requests[i].instructorNote == second
    ensures page.Valid()
    ensures page.labels == old(page.labels)[i := page.requests[i].ToString()]
    ensures page.requests[i].studentName == old(page.requests[i].studentName)
    ensures page.requests[i].studentId == old(page.requests[i].studentId)
    ensures forall j :: 0 <= j < |page.requests| && page.requests[j] != page.requests[i] ==>
      page.requests[j].status == old(page.requests[j].status) &&
      page.requests[j].instructorNote == old(page.requests[j].instructorNote)
    ensures old(page.Synced()) && page.Distinct() ==> page.Synced()
  {
    page.Approve(i, first);
    page.Deny(i, second);
  }

  /** Approving a row twice keeps the second note: the last click wins. */
  method ApproveTwice(page: InstructorHomePage, i: nat, first: string, second: string)
    requires page.Valid() && i < |page.requests|
    modifies page`labels, page.requests[i]
    ensures page.requests[i].status == Approved && page.requests[i].instructorNote == second
    ensures page.Valid()
    ensures page.labels == old(page.labels)[i := page.requests[i].ToString()]
    ensures page.requests[i].studentName == old(page.requests[i].studentName)
    ensures page.requests[i].studentId == old(page.requests[i].studentId)
    ensures forall j :: 0 <= j < |page.requests| && page.requests[j] != page.requests[i] ==>
      page.requests[j].status == old(page.requests[j].status) &&
      page.requests[j].instructorNote == old(page.requests[j].instructorNote)
    ensures old(page.Synced()) && page.Distinct() ==> page.Synced()
  {
    page.Approve(i, first);
    page.Approve(i, second);
  }

  /**
   * The demo's three mock requests on one page, then two clicks that the
   * demo itself does not make: approve row 0 (S101) with "ok" and deny
   * row 1 (S102) with "insufficient".
   */
  method RunMockSession() returns (a: ReviewerRequest, b: ReviewerRequest, c: ReviewerRequest,
                                   page: InstructorHomePage)
    ensures fresh(a) && fresh(b) && fresh(c) && fresh(page)
    ensures page.requests == [a, b, c] && page.Synced()
    ensures a.studentName == "Alice Johnson" && a.studentId == "S101"
    ensures b.studentName == "Bob Smith" && b.studentId == "S102"
    ensures c.studentName == "Charlie Lee" && c.studentId == "S103"
    ensures a.status == Approved && a.instructorNote == "ok"
    ensures b.status == Denied && b.instructorNote == "insufficient"
    ensures c.status == Pending && c.instructorNote == ""
  {
    a := new ReviewerRequest("Alice Johnson", "S101");
    b := new ReviewerRequest("Bob Smith", "S102");
    c := new ReviewerRequest("Charlie Lee", "S103");
    page := new InstructorHomePage([a, b, c]);
    page.Approve(0, "ok");
    page.Deny(1, "insufficient");
  }

  /** After the mock session each row holds the expected (status, note). */
  method MockScenario() returns (alice: (string, string), bob: (string, string), charlie: (string, string))
    ensures alice == ("approved", "ok")
    ensures bob == ("denied", "insufficient")
    ensures charlie == ("pending", "")
  {
    var a, b, c, page := RunMockSession();
    alice := (a.status, a.instructorNote);
    bob := (b.status, b.instructorNote);
    charlie := (c.status, c.instructorNote);
  }

  /** After the mock session the three row labels read exactly as follows. */
  method MockScenarioLabels() returns (labels: seq<string>)
    ensures labels == ["Alice Johnson (S101) - approved", "Bob Smith (S102) - denied",
                       "Charlie Lee (S103) - pending"]
  {
    var a, b, c, page := RunMockSession();
    assert page.labels == [a.ToString(), b.ToString(), c.ToString()];
    assert a.ToString() == "Alice Johnson (S101) - approved";
    assert b.ToString() == "Bob Smith (S102) - denied";
    assert c.ToString() == "Charlie Lee (S103) - pending";
    labels := page.labels;
  }

  /**
   * A list holding one request in two rows: approving row 0 changes the
   * request row 1 shows, but row 1's label keeps the old status.
   */
  method SharedRequestLabelGoesStale() returns (shown: string, current: string)
    ensures shown == "Dana (S104) - pending"
    ensures current == "Dana (S104) - approved"
  {
    var d := new ReviewerRequest("Dana", "S104");
    var page := new InstructorHomePage([d, d]);
    page.Approve(0, "ok");
    shown := page.labels[1];
    current := d.ToString();
  }
}
