/**
 * The application's reviewer request: five strings fixed at construction,
 * of which only the status is ever overwritten.
 */
module Application {

  /** The status values the class documents. Nothing in the class checks them. */
  predicate IsDocumentedStatus(s: string)
  {
    s == "Pending" || s == "Approved" || s == "Denied"
  }

  class ReviewerRequest {
    var id: string
    var studentName: string
    var qualifications: string
    var dateSubmitted: string
    var status: string

    /** Stores every argument as given, the status included. */
    constructor (id: string, studentName: string, qualifications: string,
                 dateSubmitted: string, status: string)
      ensures this.id == id && this.studentName == studentName
      ensures this.qualifications == qualifications && this.dateSubmitted == dateSubmitted
      ensures this.status == status
    {
      this.id := id;
      this.studentName := studentName;
      this.qualifications := qualifications;
      this.dateSubmitted := dateSubmitted;
      this.status := status;
    }

    method GetId() returns (r: string)
      ensures r == id
    {
      r := id;
    }

    method GetStudentName() returns (r: string)
      ensures r == studentName
    {
      r := studentName;
    }

    method GetQualifications() returns (r: string)
      ensures r == qualifications
    {
      r := qualifications;
    }

    method GetDateSubmitted() returns (r: string)
      ensures r == dateSubmitted
    {
      r := dateSubmitted;
    }

    method GetStatus() returns (r: string)
      ensures r == status
    {
      r := status;
    }

    /** Overwrites the status with any string; the other four fields keep their values. */
    method SetStatus(status: string)
      modifies this`status
      ensures this.status == status
      ensures id == old(id) && studentName == old(studentName)
      ensures qualifications == old(qualifications) && dateSubmitted == old(dateSubmitted)
    {
      this.status := status;
    }
  }

  /**
   * Two calls of SetStatus leave exactly the state of the single call
   * SetStatus(second): the last one wins, and repeating a value changes nothing.
   */
  method SetStatusTwice(r: ReviewerRequest, first: string, second: string)
    modifies r`status
    ensures r.status == second
    ensures r.id == old(r.id) && r.studentName == old(r.studentName)
    ensures r.qualifications == old(r.qualifications) && r.dateSubmitted == old(r.dateSubmitted)
  {
    r.SetStatus(first);
    r.SetStatus(second);
  }

  /**
   * The constructor has no default status and neither it nor SetStatus
   * rejects a value outside the documented three.
   */
  method UndocumentedStatusIsStored() returns (initial: string, updated: string)
    ensures initial == "pending" && !IsDocumentedStatus(initial)
    ensures updated == "archived" && !IsDocumentedStatus(updated)
  {
    var r := new ReviewerRequest("R1", "Alice Johnson", "TA for CSE 240", "2025-04-01", "pending");
    initial := r.GetStatus();
    r.SetStatus("archived");
    updated := r.GetStatus();
  }
}
