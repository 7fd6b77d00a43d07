/** What the administrator's student and company routes write: the document
    a new student gets, the fields an administrative edit may overwrite, the
    snapshot a share appends, and what a batch reassignment does to the two
    store-wide invariants, as written and as corrected. */
module AdminRules {
  import opened Wrappers
  import opened Text
  import opened Models
  import opened Queries
  import opened Membership

  /** The body of `POST /students`. An absent or empty `batch` or `year` is None. */
  datatype NewStudent = NewStudent(
    name: string, email: string, password: string, studentId: string,
    batch: Option<Id>, course: string, department: string, year: Option<int>, phone: string)

  /** The route's validator chain; `isEmail` is the validator library's check. */
  predicate NewStudentValid(req: NewStudent, isEmail: string -> bool) {
    && req.name != "" && isEmail(req.email) && PasswordAccepted(req.password)
    && req.studentId != "" && req.batch.Some? && req.course != "" && req.department != ""
    && req.year.Some?
  }

  /** The document `POST /students` saves (before the password hook): a
      student of the requested batch whose alumni flag is copied from that
      batch's completion flag. */
  function NewStudentDoc(req: NewStudent, batchCompleted: bool): (u: User)
    ensures u.role == Student && u.batch == req.batch && u.studentId == Some(req.studentId)
    ensures u.isAlumni == batchCompleted
    ensures u.name == Trim(req.name) && u.email == NormalizeEmail(req.email) && u.phone == Trim(req.phone)
    ensures u.course == req.course && u.department == req.department && u.year == req.year
    ensures u.password == req.password
  {
    NewUser(req.name, req.email, req.password, Student, req.phone).(
      studentId := Some(req.studentId), batch := req.batch, course := req.course,
      department := req.department, year := req.year, isAlumni := batchCompleted)
  }

  /** The filter of the duplicate check `findOne({ $or: [{ email }, { studentId }] })`;
      the e-mail in the filter passes through the path's setters. */
  function ClashesWith(req: NewStudent): User -> bool {
    (u: User) => u.email == NormalizeEmail(req.email) || u.studentId == Some(req.studentId)
  }

  /** The message of the duplicate reply compares the stored e-mail of the
      user found with the e-mail as sent, not as normalised. */
  function DuplicateMessage(found: User, req: NewStudent): (m: string)
    ensures m == "Email already exists" <==> found.email == req.email
    ensures m != "Email already exists" ==> m == "Student ID already exists"
  {
    if found.email == req.email then "Email already exists" else "Student ID already exists"
  }

  /** A duplicate found through its student id, or through an e-mail that
      was sent in a different case or with surrounding spaces, is reported
      as a student-id clash. */
  lemma DuplicateMessageForUnnormalisedEmail(found: User, req: NewStudent)
    requires found.email == NormalizeEmail(req.email) && NormalizeEmail(req.email) != req.email
    ensures DuplicateMessage(found, req) == "Student ID already exists"
  {
  }

  /** The body of `PUT /students/:id`: "" (or 0, or None) stands for a value
      that is absent or falsy. */
  datatype StudentEdit = StudentEdit(
    name: string, email: string, studentId: string, batch: Option<Id>,
    course: string, department: string, year: int, phone: string)

  /** The identity paths of the edit: name, e-mail, student id and phone. */
  function EditIdentity(u: User, e: StudentEdit): (r: User)
    ensures r.(name := u.name, email := u.email, studentId := u.studentId, phone := u.phone) == u
    ensures r.name == (if e.name != "" then Trim(e.name) else u.name)
    ensures r.email == (if e.email != "" then NormalizeEmail(e.email) else u.email)
    ensures r.studentId == (if e.studentId != "" then Some(e.studentId) else u.studentId)
    ensures r.phone == (if e.phone != "" then Trim(e.phone) else u.phone)
  {
    u.(name := if e.name != "" then Trim(e.name) else u.name,
       email := if e.email != "" then NormalizeEmail(e.email) else u.email,
       studentId := if e.studentId != "" then Some(e.studentId) else u.studentId,
       phone := if e.phone != "" then Trim(e.phone) else u.phone)
  }

  /** The placement paths of the edit: batch, course, department and year. */
  function EditPlacement(u: User, e: StudentEdit): (r: User)
    ensures r.(batch := u.batch, course := u.course, department := u.department, year := u.year) == u
    ensures r.batch == (if e.batch.Some? then e.batch else u.batch)
    ensures r.course == (if e.course != "" then e.course else u.course)
    ensures r.department == (if e.department != "" then e.department else u.department)
    ensures r.year == (if e.year != 0 then Some(e.year) else u.year)
  {
    u.(batch := if e.batch.Some? then e.batch else u.batch,
       course := if e.course != "" then e.course else u.course,
       department := if e.department != "" then e.department else u.department,
       year := if e.year != 0 then Some(e.year) else u.year)
  }

  /** The administrative edit: each of the eight listed paths is overwritten
      exactly when the supplied value is truthy (through the path's
      setters), and no other path, in particular not the alumni flag, is
      touched. */
  function AdminEdited(u: User, e: StudentEdit): (r: User)
    ensures r.(name := u.name, email := u.email, studentId := u.studentId, batch := u.batch,
               course := u.course, department := u.department, year := u.year, phone := u.phone) == u
    ensures r.name == (if e.name != "" then Trim(e.name) else u.name)
    ensures r.email == (if e.email != "" then NormalizeEmail(e.email) else u.email)
    ensures r.studentId == (if e.studentId != "" then Some(e.studentId) else u.studentId)
    ensures r.batch == (if e.batch.Some? then e.batch else u.batch)
    ensures r.course == (if e.course != "" then e.course else u.course)
    ensures r.department == (if e.department != "" then e.department else u.department)
    ensures r.year == (if e.year != 0 then Some(e.year) else u.year)
    ensures r.phone == (if e.phone != "" then Trim(e.phone) else u.phone)
  {
    EditPlacement(EditIdentity(u, e), e)
  }

  /** As written, moving a student to another batch leaves the counter of the
      batch it left one too high. */
  lemma ReassignLeavesCountStale(batches: map<Id, Batch>, users: map<Id, User>, k: Id, e: StudentEdit)
    requires CountsAccurate(batches, users)
    requires k in users && users[k].batch.Some? && users[k].batch.value in batches
    requires e.batch.Some? && e.batch != users[k].batch
    ensures !CountsAccurate(batches, users[k := AdminEdited(users[k], e)])
  {
    var a := users[k].batch.value;
    var moved := users[k := AdminEdited(users[k], e)];
    MembersAfterMove(users, k, AdminEdited(users[k], e), a);
    assert k in Members(users, a);
    assert Members(moved, a) == Members(users, a) - {k};
    assert batches[a].totalStudents != |Members(moved, a)|;
  }

  /** As written, moving a non-alumni student into a completed batch leaves a
      non-alumni student in a completed batch. */
  lemma ReassignCanBreakAlumniConsistency(batches: map<Id, Batch>, users: map<Id, User>, k: Id, e: StudentEdit)
    requires k in users && users[k].role == Student && !users[k].isAlumni
    requires e.batch.Some? && e.batch.value in batches && batches[e.batch.value].isCompleted
    ensures !AlumniConsistent(batches, users[k := AdminEdited(users[k], e)])
  {
    var moved := users[k := AdminEdited(users[k], e)];
    assert IsStudentOf(moved[k], e.batch.value) && !moved[k].isAlumni;
  }

  /** The counter refresh of the batch a reference points to, when that batch exists. */
  function RecountRef(batches: map<Id, Batch>, users: map<Id, User>, ref: Option<Id>): (r: map<Id, Batch>)
    ensures r.Keys == batches.Keys
    ensures ref.Some? && ref.value in batches ==> r == Recounted(batches, users, ref.value)
    ensures !(ref.Some? && ref.value in batches) ==> r == batches
  {
    if ref.Some? && ref.value in batches then Recounted(batches, users, ref.value) else batches
  }

  /** Storing a new user and then refreshing the counter of the batch it
      references leaves every counter exact. */
  lemma InsertRecountKeepsCounts(batches: map<Id, Batch>, users: map<Id, User>, k: Id, u: User)
    requires k !in users
    ensures CountsAccurate(batches, users) ==>
            CountsAccurate(RecountRef(batches, users[k := u], u.batch), users[k := u])
  {
    if CountsAccurate(batches, users) {
      InsertStalesOnlyOwnBatch(batches, users, k, u);
    }
    if CountsAccurate(batches, users) && u.batch.Some? && u.batch.value in batches {
      RecountRepairs(batches, users[k := u], u.batch.value);
    }
  }

  /** Storing a new user, alumni if it joins a completed batch, and then
      refreshing that batch's counter keeps the alumni invariant. */
  lemma InsertRecountKeepsAlumniConsistent(batches: map<Id, Batch>, users: map<Id, User>, k: Id, u: User)
    requires k !in users
    ensures AlumniConsistent(batches, users) &&
            (forall b :: b in batches && batches[b].isCompleted && IsStudentOf(u, b) ==> u.isAlumni)
            ==> AlumniConsistent(RecountRef(batches, users[k := u], u.batch), users[k := u])
  {
    if !AlumniConsistent(batches, users) ||
       !(forall b :: b in batches && batches[b].isCompleted && IsStudentOf(u, b) ==> u.isAlumni) {
      return;
    }
    InsertKeepsAlumniConsistent(batches, users, k, u);
    if u.batch.Some? && u.batch.value in batches {
      RecountKeepsAlumniConsistent(batches, users[k := u], users[k := u], u.batch.value);
    }
  }

  /** Deleting a user and then refreshing the counter of its former batch
      leaves every counter exact. */
  lemma RemoveRecountKeepsCounts(batches: map<Id, Batch>, users: map<Id, User>, k: Id)
    requires k in users
    ensures CountsAccurate(batches, users) ==>
            CountsAccurate(RecountRef(batches, users - {k}, users[k].batch), users - {k})
  {
    if !CountsAccurate(batches, users) {
      return;
    }
    RemoveStalesOnlyOwnBatch(batches, users, k);
    if users[k].batch.Some? && users[k].batch.value in batches {
      RecountRepairs(batches, users - {k}, users[k].batch.value);
    }
  }

  /** Deleting a user and refreshing its former batch's counter keeps the
      alumni invariant. */
  lemma RemoveRecountKeepsAlumniConsistent(batches: map<Id, Batch>, users: map<Id, User>, k: Id)
    requires k in users
    ensures AlumniConsistent(batches, users) ==>
            AlumniConsistent(RecountRef(batches, users - {k}, users[k].batch), users - {k})
  {
    if !AlumniConsistent(batches, users) {
      return;
    }
    var rest := users - {k};
    assert AlumniConsistent(batches, rest) by {
      forall c, j | c in batches && batches[c].isCompleted && j in rest && IsStudentOf(rest[j], c)
        ensures rest[j].isAlumni
      {
        assert rest[j] == users[j];
      }
    }
    if users[k].batch.Some? && users[k].batch.value in batches {
      RecountKeepsAlumniConsistent(batches, rest, rest, users[k].batch.value);
    }
  }

  /** The corrected edit: as `AdminEdited`, and a student moved into a
      completed batch becomes alumni, as a student added to it would be. */
  function SyncedEdit(batches: map<Id, Batch>, u: User, e: StudentEdit): (r: User)
    ensures r == AdminEdited(u, e).(isAlumni := r.isAlumni)
    ensures r.isAlumni <==> u.isAlumni || (r.batch.Some? && r.batch.value in batches && batches[r.batch.value].isCompleted)
  {
    var edited := AdminEdited(u, e);
    edited.(isAlumni := u.isAlumni || (edited.batch.Some? && edited.batch.value in batches && batches[edited.batch.value].isCompleted))
  }

  /** The corrected edit, followed by the refresh of the batch left and of
      the batch joined, keeps every counter exact. */
  lemma SyncedEditKeepsCounts(batches: map<Id, Batch>, users: map<Id, User>, k: Id, e: StudentEdit,
                                    batches': map<Id, Batch>, users': map<Id, User>)
    requires k in users && users' == users[k := SyncedEdit(batches, users[k], e)]
    requires batches' == RecountRef(RecountRef(batches, users', users[k].batch), users', users'[k].batch)
    ensures CountsAccurate(batches, users) ==> CountsAccurate(batches', users')
  {
    var u := SyncedEdit(batches, users[k], e);
    var b1 := RecountRef(batches, users', users[k].batch);
    var b2 := batches';
    if CountsAccurate(batches, users) {
      forall c | c in b2 ensures b2[c].totalStudents == |Members(users', c)| {
        MembersAfterMove(users, k, u, c);
        if Some(c) != users[k].batch && Some(c) != u.batch {
          assert Members(users', c) == Members(users, c);
          assert b2[c] == batches[c];
        } else if Some(c) == u.batch {
          assert b2 == Recounted(b1, users', c);
        } else {
          assert b1 == Recounted(batches, users', c);
          assert b2[c] == b1[c];
        }
      }
    }
  }

  /** The corrected edit keeps the alumni invariant: a student moved into a
      completed batch becomes alumni, and the refreshes touch no completion
      flag. */
  lemma SyncedEditKeepsAlumniConsistent(batches: map<Id, Batch>, users: map<Id, User>, k: Id, e: StudentEdit,
                                    batches': map<Id, Batch>, users': map<Id, User>)
    requires k in users && users' == users[k := SyncedEdit(batches, users[k], e)]
    requires batches' == RecountRef(RecountRef(batches, users', users[k].batch), users', users'[k].batch)
    ensures AlumniConsistent(batches, users) ==> AlumniConsistent(batches', users')
  {
    var b2 := batches';
    if AlumniConsistent(batches, users) {
      forall c, j | c in b2 && b2[c].isCompleted && j in users' && IsStudentOf(users'[j], c)
        ensures users'[j].isAlumni
      {
        assert b2[c].isCompleted == batches[c].isCompleted;
        if j != k {
          assert users'[j] == users[j];
        }
      }
    }
  }

  /** The entry `share-students` appends: the batch, the time, the ids of the
      batch's students at that moment in natural order, and the message or
      its default. */
  function Snapshot(users: map<Id, User>, n: nat, b: Id, batchName: string,
                    message: string, now: int): (r: SharedList)
    ensures r.batch == b && r.sharedDate == now
    ensures forall k :: k in r.students <==> k < n && k in users && IsStudentOf(users[k], b)
    ensures Increasing(r.students)
    ensures r.message == if message != "" then message else "Student list for " + batchName
  {
    SharedList(b, now, IdsFrom(users, (u: User) => IsStudentOf(u, b), 0, n),
               if message != "" then message else "Student list for " + batchName)
  }

  /** Over a store whose ids are all below `n`, the snapshot lists exactly
      the batch's students, each once. */
  lemma SnapshotListsStudentsOnce(users: map<Id, User>, n: nat, b: Id, batchName: string,
                                  message: string, now: int)
    requires forall k :: k in users ==> k < n
    ensures var s := Snapshot(users, n, b, batchName, message, now).students;
            (forall k :: k in s <==> k in StudentsOf(users, b)) && |s| == |StudentsOf(users, b)|
  {
    var s := Snapshot(users, n, b, batchName, message, now).students;
    IncreasingCard(s, StudentsOf(users, b));
  }
}
