# Reviewer requests and the instructor's approve/deny console

This project models the reviewer-request logic of a student/instructor
review-management demo. Students ask to become reviewers. An instructor sees
one row per request and approves or denies it, with an optional note. The
repository defines two unrelated classes named `ReviewerRequest`, and each is
modelled in its own module:

- `InstructorDemo` (`instructor_demo.dfy`) models the Swing demo in
  `HW4InstructorDemo.java`. Its `ReviewerRequest` class has a name, an id, a
  status that starts as `"pending"` and a note that starts empty. It has
  getters, two unguarded setters and a `ToString` row label. The page class
  `InstructorHomePage` keeps the request list and the text of each row's
  label. The two button handlers become methods that act on row `i`: `Approve`
  writes `"approved"` and `Deny` writes `"denied"`. Each one copies the note
  text into the request and refreshes that row's label. `StatusFromLabel`
  reads the status back out of a label, so it is the inverse of `ToString`.
- `Application` (`application_request.dfy`) models `ReviewerRequest.java`. It
  has five strings that the constructor stores as given, including the status.
  There are five getters, and `SetStatus` is the only mutator.

The code does not guard transitions, and the model keeps that. Any non-null status
string is accepted. A second click overwrites the first, and the last write
wins. The two classes spell their statuses differently (`"pending"` and
`"Pending"`), and each module keeps the spelling of its own class.

The Java list passed to the page may hold the same request object in two
rows. Then a click on one row also changes the request that the other row
shows, but the other row's label is not refreshed. The model keeps this
behaviour. `Approve` and `Deny` promise that every label matches its request
(`Synced`) only when the rows hold distinct objects (`Distinct`).
`SharedRequestLabelGoesStale` shows the stale label on a concrete list.

The text field of a row becomes the `noteText` parameter of `Approve` and
`Deny`. The label widget becomes the string `labels[i]`.

## Model

| member | source | states |
|---|---|---|
| `InstructorDemo.ReviewerRequest.constructor` | HW4InstructorDemo.java:14-19 | stores name and id unchanged; the status is `"pending"` and the note is `""` |
| `InstructorDemo.ReviewerRequest.GetStudentName` | HW4InstructorDemo.java:21-23 | returns the stored student name |
| `InstructorDemo.ReviewerRequest.GetStudentId` | HW4InstructorDemo.java:25-27 | returns the stored student id |
| `InstructorDemo.ReviewerRequest.GetStatus` | HW4InstructorDemo.java:29-31 | returns the current status |
| `InstructorDemo.ReviewerRequest.GetInstructorNote` | HW4InstructorDemo.java:33-35 | returns the current note |
| `InstructorDemo.ReviewerRequest.SetStatus` | HW4InstructorDemo.java:37-39 | the status becomes the argument, whatever it is; name, id and note are unchanged |
| `InstructorDemo.ReviewerRequest.SetInstructorNote` | HW4InstructorDemo.java:41-43 | the note becomes the argument; name, id and status are unchanged |
| `InstructorDemo.ReviewerRequest.ToString` | HW4InstructorDemo.java:46-48 | the current status can always be read back from the label, given name and id; the label is 6 characters longer than name, id and status together |
| `InstructorDemo.StatusFromLabel` | HW4InstructorDemo.java:46-48 | accepts only text of the form name + `" ("` + id + `") - "` + status, and returns that status |
| `InstructorDemo.LabelDeterminesStatus` | HW4InstructorDemo.java:46-48 | two requests with the same name and id have equal labels exactly when they have equal statuses, so the label text changes whenever the status does; it says nothing about labels already stored in rows, which can go stale (see `SharedRequestLabelGoesStale`) |
| `InstructorDemo.RenderLabels` | HW4InstructorDemo.java:64-66 | one label per request, in list order, each equal to that request's `ToString` |
| `InstructorDemo.InstructorHomePage.constructor` | HW4InstructorDemo.java:64-88 | keeps the list as given and gives every row the label of its request |
| `InstructorDemo.InstructorHomePage.Decide` | HW4InstructorDemo.java:71-81 | the work shared by both button handlers: row i's request gets the given status and note, label i is refreshed, no other label changes, and name and id stay |
| `InstructorDemo.InstructorHomePage.Approve` | HW4InstructorDemo.java:71-75 | row i's request is `"approved"` with the note text; label i equals its new `ToString`; other labels, and the status and note of every other request object, are unchanged; labels stay in sync when rows hold distinct objects |
| `InstructorDemo.InstructorHomePage.Deny` | HW4InstructorDemo.java:77-81 | the same as Approve, with `"denied"` |
| `InstructorDemo.ApproveThenDeny` | HW4InstructorDemo.java:71-81 | Approve(T1) then Deny(T2) on a row leaves (`"denied"`, T2) and a matching label: nothing guards the transition; only label i changes, row i's name and id stay, other request objects keep status and note, and labels stay in sync when rows hold distinct objects |
| `InstructorDemo.ApproveTwice` | HW4InstructorDemo.java:71-75 | approving a row twice keeps `"approved"` and the second note; the same frame as ApproveThenDeny |
| `InstructorDemo.RunMockSession` | HW4InstructorDemo.java:71-81 | a scenario the demo itself does not run: the three mock requests of HW4InstructorDemo.java:101-103 on one page, then the handlers approve row 0 (S101) with "ok" and deny row 1 (S102) with "insufficient"; states the resulting status and note of each request |
| `InstructorDemo.MockScenario` | HW4InstructorDemo.java:71-81 | after that scenario S101 is (`"approved"`, "ok"), S102 is (`"denied"`, "insufficient") and S103 is still (`"pending"`, "") |
| `InstructorDemo.MockScenarioLabels` | HW4InstructorDemo.java:71-81 | after that scenario the labels read exactly `Alice Johnson (S101) - approved`, `Bob Smith (S102) - denied`, `Charlie Lee (S103) - pending` |
| `InstructorDemo.SharedRequestLabelGoesStale` | HW4InstructorDemo.java:64-81 | when one request fills two rows, approving row 0 leaves row 1's label showing `"pending"` while the request reads `"approved"` |
| `Application.ReviewerRequest.constructor` | ReviewerRequest.java:27-34 | stores id, student name, qualifications, submission date and status exactly as passed; there is no default status |
| `Application.ReviewerRequest.GetId` | ReviewerRequest.java:41-43 | returns the stored id |
| `Application.ReviewerRequest.GetStudentName` | ReviewerRequest.java:50-52 | returns the stored student name |
| `Application.ReviewerRequest.GetQualifications` | ReviewerRequest.java:59-61 | returns the stored qualifications |
| `Application.ReviewerRequest.GetDateSubmitted` | ReviewerRequest.java:68-70 | returns the stored submission date |
| `Application.ReviewerRequest.GetStatus` | ReviewerRequest.java:77-79 | returns the current status |
| `Application.ReviewerRequest.SetStatus` | ReviewerRequest.java:86-88 | the status becomes the argument; id, name, qualifications and date are unchanged |
| `Application.SetStatusTwice` | ReviewerRequest.java:86-88 | of two calls the last one wins; the same value twice gives the result of one call; the other four fields are unchanged |
| `Application.IsDocumentedStatus` | ReviewerRequest.java:16-25 | the three documented values `"Pending"`, `"Approved"`, `"Denied"` (also named at ReviewerRequest.java:84); no operation requires it |
| `Application.UndocumentedStatusIsStored` | ReviewerRequest.java:84-88 | a status outside `"Pending"`/`"Approved"`/`"Denied"` is stored and returned as given, at construction and by SetStatus |

## Left out

- The Swing widgets are not modelled: frame, panels, layout, sizing, the scroll pane and the buttons themselves (HW4InstructorDemo.java:56-62, 65-70, 83-91). The note field is a string parameter, and the label is a stored string.
- `main` and the window display (HW4InstructorDemo.java:98-108) are not modelled. The only part used is the three mock requests, which are built in `RunMockSession`. The two clicks that follow in `RunMockSession` are a scenario of the model; `main` makes none.
- InstructorHomePage.java is not part of this model. It is JavaFX layout and navigation to pages and helpers that are not shown, and it has no logic of its own.
- Java `null` strings are not modelled, because a Dafny `string` cannot be null. In the source, both constructors, `setStatus` and `setInstructorNote` accept `null` (HW4InstructorDemo.java:14-19, 37-43; ReviewerRequest.java:27-34, 86-88), and `toString` prints a null field as `"null"` (HW4InstructorDemo.java:47). The model covers only non-null strings.
- A `null` request list and `null` elements in the list are not modelled, because the page takes a `seq` of the non-null class type `ReviewerRequest`. In the source the page constructor throws NullPointerException on both: on a `null` list at the for-each (HW4InstructorDemo.java:64), and on a `null` element at `req.toString()` (HW4InstructorDemo.java:66), so the constructor returns no page; rows already built for earlier elements are thrown away with it. `InstructorDemo.InstructorHomePage.constructor` and `InstructorDemo.RenderLabels` state only the non-null case.
- Persistence, database access and authentication are not modelled. The source only names them.
- Status validation, transition guards and error kinds are not modelled, because the code has none. `Application.IsDocumentedStatus` names the documented domain. No operation requires it.
- Nothing unifies the two `ReviewerRequest` classes, because the code does not.
