/** The server's database as one object: the batch, user and company
    collections and the id source, with one method per state-changing route
    handler. Every method keeps `Valid()` (the schema rules and the
    uniqueness the handlers' own lookups guarantee) and states its reply and
    its whole new state; the two cross-collection invariants of the batch
    lifecycle are stated per method, as the handlers keep or break them. */
module Server {
  import opened Wrappers
  import opened Text
  import opened Models
  import opened Queries
  import opened Membership
  import opened Http
  import opened AdminRules
  import opened Auth
  import opened Profile
  import opened Uploads

  // ------------------------------------------------------------ requests

  /** The body of `POST /admin/batches`; None stands for a year that is not
      numeric or a date that is not ISO 8601. */
  datatype BatchRequest = BatchRequest(
    batchName: string, year: Option<int>, course: string, department: string,
    startDate: Option<int>, endDate: Option<int>, description: string)

  predicate BatchRequestValid(req: BatchRequest) {
    && req.batchName != "" && req.year.Some? && req.course != "" && req.department != ""
    && req.startDate.Some? && req.endDate.Some?
  }

  /** The batch `POST /admin/batches` saves: not completed, no completion
      date, no students yet, the request paths copied (name and description
      through the trim setter); it is storable exactly when the trimmed name
      is not empty, the other required paths being checked by the validator. */
  function BatchDoc(req: BatchRequest): (b: Batch)
    requires BatchRequestValid(req)
    ensures !b.isCompleted && b.completedDate.None? && b.totalStudents == 0
    ensures b.batchName == Trim(req.batchName) && b.description == Trim(req.description)
    ensures b.year == req.year.value && b.course == req.course && b.department == req.department
    ensures b.startDate == req.startDate.value && b.endDate == req.endDate.value
    ensures BatchStorable(b) <==> Trim(req.batchName) != ""
  {
    NewBatch(req.batchName, req.year.value, req.course, req.department,
             req.startDate.value, req.endDate.value, req.description)
  }

  /** The body of `POST /admin/companies`, every path as sent ("" if absent). */
  datatype CompanyRequest = CompanyRequest(
    companyName: string, contactEmail: string, contactPerson: string, contactPhone: string,
    website: string, description: string, industry: string, location: string)

  /** The company `POST /admin/companies` saves: no share events yet, the
      contact e-mail normalised, every other path trimmed; it is storable
      exactly when the three required paths survive their setters. */
  function CompanyDoc(req: CompanyRequest): (c: Company)
    ensures c.sharedStudentLists == []
    ensures c.contactEmail == NormalizeEmail(req.contactEmail)
    ensures c.companyName == Trim(req.companyName) && c.contactPerson == Trim(req.contactPerson)
    ensures c.contactPhone == Trim(req.contactPhone) && c.website == Trim(req.website)
    ensures c.description == Trim(req.description) && c.industry == Trim(req.industry)
    ensures c.location == Trim(req.location)
    ensures CompanyStorable(c) <==>
      Trim(req.companyName) != "" && NormalizeEmail(req.contactEmail) != "" && Trim(req.contactPerson) != ""
  {
    NewCompany(req.companyName, req.contactEmail, req.contactPerson, req.contactPhone,
               req.website, req.description, req.industry, req.location)
  }

  // ------------------------------------------------------------ invariants

  ghost predicate EmailsNormalized(users: map<Id, User>) {
    forall k {:trigger NormalizeEmail(users[k].email)} :: k in users ==> users[k].email == NormalizeEmail(users[k].email)
  }

  /** Every batch reference, dangling or not, lies below the id source: a new
      document never takes an id that something already refers to, as the
      database's object ids never repeat. */
  ghost predicate RefsBelow(users: map<Id, User>, n: nat) {
    forall k {:trigger users[k].batch} :: k in users && users[k].batch.Some? ==> users[k].batch.value < n
  }

  ghost predicate UsersValid(users: map<Id, User>, n: nat) {
    && (forall k :: k in users ==> k < n)
    && RefsBelow(users, n) && UniqueEmails(users) && EmailsNormalized(users)
    && UniqueStudentIds(users) && AdminsUnbatched(users) && AllStorable(users)
  }

  ghost predicate BatchesValid(batches: map<Id, Batch>, n: nat) {
    && (forall k :: k in batches ==> k < n)
    && UniqueBatchNames(batches) && (forall k :: k in batches ==> BatchStorable(batches[k]))
  }

  ghost predicate CompaniesValid(companies: map<Id, Company>, n: nat) {
    && (forall k :: k in companies ==> k < n)
    && (forall k {:trigger CompanyStorable(companies[k])} :: k in companies ==> CompanyStorable(companies[k]))
  }

  /** The smallest id bound that is at least `n` and lies above the reference. */
  function Above(n: nat, ref: Option<Id>): (m: nat)
    ensures m >= n && (ref.Some? ==> ref.value < m)
    ensures ref.None? ==> m == n
  {
    if ref.Some? && ref.value >= n then ref.value + 1 else n
  }

  lemma UsersValidRaise(users: map<Id, User>, n: nat, m: nat)
    requires UsersValid(users, n) && n <= m
    ensures UsersValid(users, m)
  {
  }

  /** A user stored under a fresh id that clashes with nobody on e-mail or
      student id keeps the user invariants. */
  lemma InsertKeepsUsersValid(users: map<Id, User>, n: nat, k: Id, u: User, m: nat)
    requires UsersValid(users, n) && n <= k < m
    requires u.email == NormalizeEmail(u.email) && Storable(u)
    requires forall j :: j in users ==> users[j].email != u.email
    requires u.studentId.Some? ==> forall j :: j in users ==> users[j].studentId != u.studentId
    requires u.role == Admin ==> u.batch == None
    requires u.batch.Some? ==> u.batch.value < m
    ensures UsersValid(users[k := u], m)
  {
  }

  /** Overwriting a user with a document that clashes with no other user
      keeps the user invariants. */
  lemma OverwriteKeepsUsersValid(users: map<Id, User>, n: nat, k: Id, u: User)
    requires UsersValid(users, n) && k in users
    requires u.email == NormalizeEmail(u.email) && Storable(u)
    requires forall j :: j in users && j != k ==> users[j].email != u.email
    requires u.studentId.Some? ==> forall j :: j in users && j != k ==> users[j].studentId != u.studentId
    requires u.role == Admin ==> u.batch == None
    requires u.batch.Some? ==> u.batch.value < n
    ensures UsersValid(users[k := u], n)
  {
    var m := users[k := u];
    forall a, b | a in m && b in m && a != b && m[a].studentId.Some?
      ensures m[a].studentId != m[b].studentId
    {
      if a != k && b != k {
        assert m[a] == users[a] && m[b] == users[b];
      }
    }
  }

  /** Overwriting a user without touching the paths the invariants read. */
  lemma SameKeysKeepsUsersValid(users: map<Id, User>, n: nat, k: Id, u: User)
    requires UsersValid(users, n) && k in users
    requires u.name == users[k].name && u.email == users[k].email && u.role == users[k].role
    requires u.studentId == users[k].studentId && u.batch == users[k].batch
    requires u.course == users[k].course && u.department == users[k].department && u.year == users[k].year
    ensures UsersValid(users[k := u], n)
  {
    assert users[k].email == NormalizeEmail(users[k].email) && Storable(users[k]);
    OverwriteKeepsUsersValid(users, n, k, u);
  }

  lemma RemoveKeepsUsersValid(users: map<Id, User>, n: nat, k: Id)
    requires UsersValid(users, n)
    ensures UsersValid(users - {k}, n)
  {
  }

  /** The alumni cascade touches no path the user invariants read. */
  lemma CascadeKeepsUsersValid(users: map<Id, User>, n: nat, b: Id)
    requires UsersValid(users, n)
    ensures UsersValid(Cascade(users, b), n)
  {
    var c := Cascade(users, b);
    CascadeEffect(users, b);
    forall k | k in users
      ensures c[k].email == users[k].email && c[k].studentId == users[k].studentId
      ensures c[k].role == users[k].role && c[k].batch == users[k].batch && Storable(c[k])
    {
      assert c[k].(isAlumni := users[k].isAlumni) == users[k];
      assert Storable(users[k]);
    }
  }

  lemma RecountKeepsBatchesValid(batches: map<Id, Batch>, users: map<Id, User>, n: nat, b: Id)
    requires BatchesValid(batches, n) && b in batches
    ensures BatchesValid(Recounted(batches, users, b), n)
  {
    var r := Recounted(batches, users, b);
    assert r[b].(totalStudents := batches[b].totalStudents) == batches[b];
    assert r[b].batchName == batches[b].batchName;
  }

  lemma CompletionKeepsBatchesValid(batches: map<Id, Batch>, n: nat, b: Id, now: int)
    requires BatchesValid(batches, n) && b in batches
    ensures BatchesValid(Completed(batches, b, now), n)
  {
    var r := Completed(batches, b, now);
    assert r[b].(isCompleted := batches[b].isCompleted, completedDate := batches[b].completedDate) == batches[b];
    assert r[b].batchName == batches[b].batchName;
  }

  // -------------------------------------------------- guards of the handlers

  /** The guards of `PUT /admin/students/:id` in the order they run: the
      user must be a student, and an e-mail or student id that differs from
      the stored one must not belong to any other user. None when all pass. */
  function EditRejection(users: map<Id, User>, n: nat, id: Id, e: StudentEdit): (r: Option<Reply>)
    requires forall k :: k in users ==> k < n
    ensures id !in users || users[id].role != Student ==> r == Some(Error(404, "Student not found"))
    ensures r.None? <==>
      && id in users && users[id].role == Student
      && !(e.email != "" && e.email != users[id].email &&
           exists k :: k in users && k != id && users[k].email == NormalizeEmail(e.email))
      && !(e.studentId != "" && Some(e.studentId) != users[id].studentId &&
           exists k :: k in users && k != id && users[k].studentId == Some(e.studentId))
    ensures r.Some? ==> r.value.Error? && r.value.status in {400, 404}
  {
    FindOneExcept(users, (u: User) => u.email == NormalizeEmail(e.email), id, n);
    FindOneExcept(users, (u: User) => u.studentId == Some(e.studentId), id, n);
    if id !in users || users[id].role != Student then Some(Error(404, "Student not found"))
    else if e.email != "" && e.email != users[id].email &&
            FindOne(users - {id}, (u: User) => u.email == NormalizeEmail(e.email), n).Some? then
      Some(Error(400, "Email already exists"))
    else if e.studentId != "" && Some(e.studentId) != users[id].studentId &&
            FindOne(users - {id}, (u: User) => u.studentId == Some(e.studentId), n).Some? then
      Some(Error(400, "Student ID already exists"))
    else None
  }

  /** An edit that passed the guards gives an e-mail, normalised, that no
      other user holds. */
  lemma EditedEmailClashesWithNobody(users: map<Id, User>, n: nat, id: Id, e: StudentEdit, u: User)
    requires UsersValid(users, n)
    requires EditRejection(users, n, id, e).None?
    requires u.email == (if e.email != "" then NormalizeEmail(e.email) else users[id].email)
    ensures u.email == NormalizeEmail(u.email)
    ensures forall j :: j in users && j != id ==> users[j].email != u.email
  {
    var old_ := users[id];
    assert old_.email == NormalizeEmail(old_.email);
    if e.email != "" {
      NormalizeEmailIdempotent(e.email);
      if e.email == old_.email {
        assert u.email == old_.email;
      }
    }
  }

  /** An edit that passed the guards gives a student id no other user holds. */
  lemma EditedStudentIdClashesWithNobody(users: map<Id, User>, n: nat, id: Id, e: StudentEdit, u: User)
    requires UsersValid(users, n)
    requires EditRejection(users, n, id, e).None?
    requires u.studentId == (if e.studentId != "" then Some(e.studentId) else users[id].studentId)
    ensures u.studentId.Some? ==> forall j :: j in users && j != id ==> users[j].studentId != u.studentId
  {
  }

  /** Saving an edit that passed the guards, with or without the alumni
      flag changed, keeps the user invariants once the id source lies above
      the new batch reference. */
  lemma EditKeepsUsersValid(users: map<Id, User>, n: nat, id: Id, e: StudentEdit, doc: User)
    requires UsersValid(users, n) && EditRejection(users, n, id, e).None? && Storable(doc)
    requires doc.(isAlumni := AdminEdited(users[id], e).isAlumni) == AdminEdited(users[id], e)
    ensures UsersValid(users[id := doc], Above(n, doc.batch))
  {
    var edited := AdminEdited(users[id], e);
    assert doc.email == edited.email && doc.studentId == edited.studentId;
    assert doc.role == edited.role == users[id].role;
    EditedEmailClashesWithNobody(users, n, id, e, doc);
    EditedStudentIdClashesWithNobody(users, n, id, e, doc);
    UsersValidRaise(users, n, Above(n, doc.batch));
    OverwriteKeepsUsersValid(users, Above(n, doc.batch), id, doc);
  }

  /** The guards of `POST /auth/register` in the order they run. */
  function RegisterRejection(users: map<Id, User>, n: nat, req: Registration, isEmail: string -> bool): (r: Option<Reply>)
    requires forall k :: k in users ==> k < n
    ensures !RegistrationValid(req, isEmail) ==> r == Some(InvalidInput)
    ensures RegistrationValid(req, isEmail) && (exists k :: k in users && users[k].email == NormalizeEmail(req.email))
      ==> r == Some(Error(400, "User already exists with this email"))
    ensures r.None? <==>
      && RegistrationValid(req, isEmail)
      && (forall k :: k in users ==> users[k].email != NormalizeEmail(req.email))
      && !(req.role == "student" && req.studentId != "" &&
           exists k :: k in users && users[k].studentId == Some(req.studentId))
  {
    if !RegistrationValid(req, isEmail) then Some(InvalidInput)
    else if FindOne(users, (u: User) => u.email == NormalizeEmail(req.email), n).Some? then
      Some(Error(400, "User already exists with this email"))
    else if req.role == "student" && req.studentId != "" &&
            FindOne(users, (u: User) => u.studentId == Some(req.studentId), n).Some? then
      Some(Error(400, "Student ID already exists"))
    else None
  }

  /** The corrected registration document: a student registered into a
      completed batch is alumni, as one added by an administrator is. */
  function SyncedRegisteredDoc(batches: map<Id, Batch>, req: Registration, role: Role): (u: User)
    ensures u == RegisteredDoc(req, role).(isAlumni := u.isAlumni)
    ensures u.isAlumni <==> role == Student && req.batch.Some? && req.batch.value in batches && batches[req.batch.value].isCompleted
  {
    RegisteredDoc(req, role).(isAlumni := role == Student && req.batch.Some? &&
                                          req.batch.value in batches && batches[req.batch.value].isCompleted)
  }

  /** As written, a student registered into a completed batch is stored
      without the alumni flag, so the store holds a non-alumni student of a
      completed batch. */
  lemma RegisterIntoCompletedBreaksAlumniConsistency(batches: map<Id, Batch>, users: map<Id, User>, k: Id, req: Registration)
    requires req.batch.Some? && req.batch.value in batches && batches[req.batch.value].isCompleted
    ensures !AlumniConsistent(batches, users[k := RegisteredDoc(req, Student)])
  {
    var m := users[k := RegisteredDoc(req, Student)];
    assert IsStudentOf(m[k], req.batch.value) && !m[k].isAlumni;
  }

  // ------------------------------------------------------------ the store

  /** The contact assignments of `PUT /students/profile`, one truthy path
      at a time. */
  method AssignContact(u: User, req: ProfileRequest) returns (s: User)
    ensures s == ContactEdited(u, req)
  {
    s := u;
    if req.phone != "" { s := s.(phone := Trim(req.phone)); }
    if req.linkedinProfile != "" { s := s.(linkedinProfile := req.linkedinProfile); }
    if req.githubProfile != "" { s := s.(githubProfile := req.githubProfile); }
    if req.portfolioWebsite != "" { s := s.(portfolioWebsite := req.portfolioWebsite); }
    if req.skills.Some? { s := s.(skills := req.skills.value); }
  }

  /** The work assignments an alumni request adds, one truthy path at a
      time; `status` is the parsed status, None when none was sent. */
  method AssignWork(u: User, req: ProfileRequest, status: Option<Status>) returns (s: User)
    ensures s == WorkEdited(u, req, status)
  {
    s := u;
    if req.jobRole != "" { s := s.(jobRole := req.jobRole); }
    if req.company != "" { s := s.(company := req.company); }
    if req.workLocation != "" { s := s.(workLocation := req.workLocation); }
    if req.salary.Some? { s := s.(salary := req.salary.value); }
    assert s == JobEdited(u, req);
    ghost var job := s;
    if req.experience != "" { s := s.(experience := req.experience); }
    if req.achievements.Some? { s := s.(achievements := req.achievements.value); }
    if status.Some? { s := s.(currentStatus := status.value); }
    assert s == CareerEdited(job, req, status);
  }

  class Store {
    var batches: map<Id, Batch>
    var users: map<Id, User>
    var companies: map<Id, Company>
    /** The id source: every id in use, and every batch reference, is below it. */
    var nextId: nat

    ghost predicate Valid()
      reads this
    {
      UsersValid(users, nextId) && BatchesValid(batches, nextId) && CompaniesValid(companies, nextId)
    }

    constructor ()
      ensures Valid()
      ensures batches == map[] && users == map[] && companies == map[]
    {
      batches := map[];
      users := map[];
      companies := map[];
      nextId := 0;
    }

    /** A fresh document id. */
    method Allocate() returns (id: Id)
      modifies this
      ensures id == old(nextId) && nextId == id + 1
      ensures batches == old(batches) && users == old(users) && companies == old(companies)
    {
      id := nextId;
      nextId := nextId + 1;
    }

    /** `Batch.updateStudentCount`: the cached count of `b` becomes the
        number of users referencing it. */
    method UpdateStudentCount(b: Id)
      requires Valid() && b in batches
      modifies this
      ensures Valid()
      ensures batches == Recounted(old(batches), users, b)
      ensures users == old(users) && companies == old(companies) && nextId == old(nextId)
    {
      RecountKeepsBatchesValid(batches, users, nextId, b);
      var count := |Members(users, b)|;
      batches := batches[b := batches[b].(totalStudents := count)];
    }

    /** `POST /admin/batches`. */
    method CreateBatch(req: BatchRequest) returns (r: Reply)
      requires Valid()
      modifies this
      ensures Valid()
      ensures users == old(users) && companies == old(companies)
      ensures !BatchRequestValid(req) ==> r == InvalidInput
      ensures BatchRequestValid(req) && (exists k :: k in old(batches) && old(batches)[k].batchName == Trim(req.batchName))
        ==> r == Error(400, "Batch with this name already exists")
      ensures BatchRequestValid(req) && (forall k :: k in old(batches) ==> old(batches)[k].batchName != Trim(req.batchName))
        ==> r == (if BatchStorable(BatchDoc(req)) then Ok(201) else ServerError)
      ensures r == Ok(201) ==> batches == old(batches)[old(nextId) := BatchDoc(req)]
      ensures r != Ok(201) ==> batches == old(batches)
      ensures old(CountsAccurate(batches, users)) ==> CountsAccurate(batches, users)
      ensures old(AlumniConsistent(batches, users)) ==> AlumniConsistent(batches, users)
    {
      if !BatchRequestValid(req) {
        return InvalidInput;
      }
      var existing := FindOne(batches, (b: Batch) => b.batchName == Trim(req.batchName), nextId);
      if existing.Some? {
        return Error(400, "Batch with this name already exists");
      }
      var doc := BatchDoc(req);
      if !BatchStorable(doc) {
        return ServerError;
      }
      var id := Allocate();
      assert Members(users, id) == {};
      batches := batches[id := doc];
      UsersValidRaise(users, id, nextId);
      r := Ok(201);
    }

    /** `PUT /admin/batches/:id/complete`: the completion step, then the
        alumni cascade over the batch's students. */
    method CompleteBatch(id: Id, now: int) returns (r: Reply)
      requires Valid()
      modifies this
      ensures Valid()
      ensures companies == old(companies) && nextId == old(nextId)
      ensures id !in old(batches) ==> r == Error(404, "Batch not found") && batches == old(batches) && users == old(users)
      ensures id in old(batches) ==>
        && r == Ok(200)
        && batches == Completed(old(batches), id, now)
        && users == Cascade(old(users), id)
      ensures id in old(batches) ==> forall k :: k in users && IsStudentOf(users[k], id) ==> users[k].isAlumni
      ensures old(AlumniConsistent(batches, users)) ==> AlumniConsistent(batches, users)
      ensures old(CountsAccurate(batches, users)) ==> CountsAccurate(batches, users)
    {
      if id !in batches {
        return Error(404, "Batch not found");
      }
      CompletionKeepsBatchesValid(batches, nextId, id, now);
      CascadeKeepsUsersValid(users, nextId, id);
      if AlumniConsistent(batches, users) {
        CompletionKeepsAlumniConsistent(batches, users, id, now);
      }
      if CountsAccurate(batches, users) {
        CompletionKeepsCounts(batches, users, id, now);
      }
      CascadeEffect(users, id);
      batches := batches[id := batches[id].(isCompleted := true, completedDate := Some(now))];
      users := Cascade(users, id);
      r := Ok(200);
    }

    /** `POST /admin/students`: validators, the duplicate lookup, the batch
        lookup, the save (password hashed) and the recount of the batch. */
    method AddStudent(req: NewStudent, isEmail: string -> bool, hash: string -> string) returns (r: Reply)
      requires Valid()
      modifies this
      ensures Valid()
      ensures companies == old(companies)
      ensures !NewStudentValid(req, isEmail) ==> r == InvalidInput
      ensures NewStudentValid(req, isEmail) ==>
        var clash := old(FindOne(users, ClashesWith(req), nextId));
        var b := req.batch.value;
        && (clash.Some? ==> r == Error(400, DuplicateMessage(old(users)[clash.value], req)))
        && (clash.None? && b !in old(batches) ==> r == Error(400, "Batch not found"))
        && (clash.None? && b in old(batches) ==>
              var doc := PreSave(NewStudentDoc(req, old(batches)[b].isCompleted), true, hash);
              && r == (if Storable(doc) then Ok(201) else ServerError)
              && (r == Ok(201) ==> users == old(users)[old(nextId) := doc] && batches == Recounted(old(batches), users, b)))
      ensures r != Ok(201) ==> users == old(users) && batches == old(batches)
      ensures old(AlumniConsistent(batches, users)) ==> AlumniConsistent(batches, users)
      ensures old(CountsAccurate(batches, users)) ==> CountsAccurate(batches, users)
    {
      if !NewStudentValid(req, isEmail) {
        return InvalidInput;
      }
      var clash := FindOne(users, ClashesWith(req), nextId);
      if clash.Some? {
        return Error(400, DuplicateMessage(users[clash.value], req));
      }
      var b := req.batch.value;
      if b !in batches {
        return Error(400, "Batch not found");
      }
      var doc := PreSave(NewStudentDoc(req, batches[b].isCompleted), true, hash);
      if !Storable(doc) {
        return ServerError;
      }
      NormalizeEmailIdempotent(req.email);
      assert forall j :: j in users ==> !ClashesWith(req)(users[j]);
      var id := InsertUser(doc);
      r := Ok(201);
    }

    /** `PUT /admin/students/:id` as written: the guards, then the truthy
        paths are written and saved. No batch is recounted and the alumni
        flag is left alone, whatever batch the student is moved to. */
    method UpdateStudent(id: Id, e: StudentEdit) returns (r: Reply)
      requires Valid()
      modifies this
      ensures Valid()
      ensures batches == old(batches) && companies == old(companies)
      ensures var rej := old(EditRejection(users, nextId, id, e));
        && (rej.Some? ==> r == rej.value && users == old(users))
        && (rej.None? ==>
              var doc := AdminEdited(old(users)[id], e);
              && r == (if Storable(doc) then Ok(200) else ServerError)
              && users == (if Storable(doc) then old(users)[id := doc] else old(users)))
      ensures id in users ==> users[id].isAlumni == old(users)[id].isAlumni
      ensures nextId == (if r == Ok(200) then Above(old(nextId), users[id].batch) else old(nextId))
    {
      var rej := EditRejection(users, nextId, id, e);
      if rej.Some? {
        return rej.value;
      }
      var doc := AdminEdited(users[id], e);
      if !Storable(doc) {
        return ServerError;
      }
      EditKeepsUsersValid(users, nextId, id, e, doc);
      users, nextId := users[id := doc], Above(nextId, doc.batch);
      r := Ok(200);
    }

    /** The corrected `PUT /admin/students/:id`: the same guards and writes,
        a student moved into a completed batch becomes alumni, and both the
        batch left and the batch joined are recounted. Both lifecycle
        invariants then survive every edit. */
    method UpdateStudentSynced(id: Id, e: StudentEdit) returns (r: Reply)
      requires Valid()
      modifies this
      ensures Valid()
      ensures companies == old(companies)
      ensures var rej := old(EditRejection(users, nextId, id, e));
        && (rej.Some? ==> r == rej.value && users == old(users) && batches == old(batches))
        && (rej.None? ==>
              var doc := SyncedEdit(old(batches), old(users)[id], e);
              && r == (if Storable(doc) then Ok(200) else ServerError)
              && (Storable(doc) ==>
                    && users == old(users)[id := doc]
                    && batches == RecountRef(RecountRef(old(batches), users, old(users)[id].batch), users, doc.batch))
              && (!Storable(doc) ==> users == old(users) && batches == old(batches)))
      ensures old(AlumniConsistent(batches, users)) ==> AlumniConsistent(batches, users)
      ensures old(CountsAccurate(batches, users)) ==> CountsAccurate(batches, users)
    {
      var rej := EditRejection(users, nextId, id, e);
      if rej.Some? {
        return rej.value;
      }
      var doc := SyncedEdit(batches, users[id], e);
      if !Storable(doc) {
        return ServerError;
      }
      ghost var batches0, users0 := batches, users;
      EditKeepsUsersValid(users, nextId, id, e, doc);
      SaveMoved(id, doc);
      SyncedEditKeepsCounts(batches0, users0, id, e, batches, users);
      SyncedEditKeepsAlumniConsistent(batches0, users0, id, e, batches, users);
      r := Ok(200);
    }

    /** The save step of the corrected edit: the document is written and
        the counters of the batch left and of the batch joined are
        refreshed. */
    method SaveMoved(id: Id, doc: User)
      requires Valid() && id in users && UsersValid(users[id := doc], Above(nextId, doc.batch))
      modifies this
      ensures Valid()
      ensures users == old(users)[id := doc] && nextId == Above(old(nextId), doc.batch)
      ensures batches == RecountRef(RecountRef(old(batches), users, old(users)[id].batch), users, doc.batch)
      ensures companies == old(companies)
    {
      var left := users[id].batch;
      users, nextId := users[id := doc], Above(nextId, doc.batch);
      if left.Some? && left.value in batches {
        UpdateStudentCount(left.value);
      }
      if doc.batch.Some? && doc.batch.value in batches {
        UpdateStudentCount(doc.batch.value);
      }
    }

    /** `DELETE /admin/students/:id`: only a student can be deleted; the
        batch it belonged to, if it still exists, is recounted. */
    method DeleteStudent(id: Id) returns (r: Reply)
      requires Valid()
      modifies this
      ensures Valid()
      ensures companies == old(companies) && nextId == old(nextId)
      ensures id !in old(users) || old(users)[id].role != Student ==>
        r == Error(404, "Student not found") && users == old(users) && batches == old(batches)
      ensures id in old(users) && old(users)[id].role == Student ==>
        && r == Ok(200) && users == old(users) - {id}
        && batches == RecountRef(old(batches), users, old(users)[id].batch)
      ensures id in old(users) && old(users)[id].batch.Some? && old(users)[id].batch.value in batches ==>
        var b := old(users)[id].batch.value;
        batches[b].totalStudents == |Members(users, b)|
      ensures old(CountsAccurate(batches, users)) ==> CountsAccurate(batches, users)
      ensures old(AlumniConsistent(batches, users)) ==> AlumniConsistent(batches, users)
    {
      if id !in users || users[id].role != Student {
        return Error(404, "Student not found");
      }
      var former := users[id].batch;
      RemoveKeepsUsersValid(users, nextId, id);
      RemoveRecountKeepsCounts(batches, users, id);
      RemoveRecountKeepsAlumniConsistent(batches, users, id);
      users := users - {id};
      if former.Some? && former.value in batches {
        UpdateStudentCount(former.value);
      }
      r := Ok(200);
    }

    /** `POST /admin/companies`. */
    method CreateCompany(req: CompanyRequest, isEmail: string -> bool) returns (r: Reply)
      requires Valid()
      modifies this
      ensures Valid()
      ensures users == old(users) && batches == old(batches)
      ensures !(req.companyName != "" && isEmail(req.contactEmail) && req.contactPerson != "") ==> r == InvalidInput
      ensures req.companyName != "" && isEmail(req.contactEmail) && req.contactPerson != "" ==>
        r == (if CompanyStorable(CompanyDoc(req)) then Ok(201) else ServerError)
      ensures r == Ok(201) ==> companies == old(companies)[old(nextId) := CompanyDoc(req)]
      ensures r != Ok(201) ==> companies == old(companies)
    {
      if !(req.companyName != "" && isEmail(req.contactEmail) && req.contactPerson != "") {
        return InvalidInput;
      }
      var doc := CompanyDoc(req);
      if !CompanyStorable(doc) {
        return ServerError;
      }
      var id := Allocate();
      UsersValidRaise(users, id, nextId);
      companies := companies[id := doc];
      r := Ok(201);
    }

    /** `POST /admin/companies/:companyId/share-students`: one snapshot of the
        batch's students is appended to the company's lists; `shared` is the
        number of students listed. */
    method ShareStudents(companyId: Id, batchId: Option<Id>, message: string, now: int)
      returns (r: Reply, shared: nat)
      requires Valid()
      modifies this
      ensures Valid()
      ensures users == old(users) && batches == old(batches) && nextId == old(nextId)
      ensures batchId.None? ==> r == InvalidInput
      ensures batchId.Some? && companyId !in old(companies) ==> r == Error(404, "Company not found")
      ensures batchId.Some? && companyId in old(companies) && batchId.value !in batches ==>
        r == Error(404, "Batch not found")
      ensures r == Ok(200) <==> batchId.Some? && companyId in old(companies) && batchId.value in batches
      ensures r == Ok(200) ==>
        var b := batchId.value;
        var before := old(companies)[companyId];
        && companies == old(companies)[companyId := before.(sharedStudentLists :=
             before.sharedStudentLists + [Snapshot(users, nextId, b, batches[b].batchName, message, now)])]
        && shared == |StudentsOf(users, b)|
      ensures r != Ok(200) ==> companies == old(companies)
    {
      if batchId.None? {
        return InvalidInput, 0;
      }
      if companyId !in companies {
        return Error(404, "Company not found"), 0;
      }
      var b := batchId.value;
      if b !in batches {
        return Error(404, "Batch not found"), 0;
      }
      var entry := Snapshot(users, nextId, b, batches[b].batchName, message, now);
      SnapshotListsStudentsOnce(users, nextId, b, batches[b].batchName, message, now);
      var company := companies[companyId];
      assert CompanyStorable(company);
      companies := companies[companyId := company.(sharedStudentLists := company.sharedStudentLists + [entry])];
      shared := |entry.students|;
      r := Ok(200);
    }

    /** `POST /auth/register` as written: the guards, the role-dependent
        document (password hashed), the save, the recount of an existing
        batch, and the token. The alumni flag keeps its default. */
    method Register(req: Registration, isEmail: string -> bool, hash: string -> string,
                    sign: (Id, Role) -> string) returns (r: Reply, token: string)
      requires Valid()
      modifies this
      ensures Valid()
      ensures companies == old(companies)
      ensures var rej := old(RegisterRejection(users, nextId, req, isEmail));
        && (rej.Some? ==> r == rej.value && users == old(users) && batches == old(batches))
        && (rej.None? ==>
              var role := ParseRole(req.role).value;
              var doc := PreSave(RegisteredDoc(req, role), true, hash);
              && r == (if Storable(doc) then Ok(201) else ServerError)
              && (Storable(doc) ==>
                    && users == old(users)[old(nextId) := doc]
                    && batches == RecountRef(old(batches), users, doc.batch)
                    && token == sign(old(nextId), role))
              && (!Storable(doc) ==> users == old(users) && batches == old(batches)))
      ensures old(CountsAccurate(batches, users)) ==> CountsAccurate(batches, users)
      ensures old(AlumniConsistent(batches, users)) &&
              (forall b :: b in old(batches) && old(batches)[b].isCompleted ==> req.batch != Some(b))
        ==> AlumniConsistent(batches, users)
    {
      token := "";
      var rej := RegisterRejection(users, nextId, req, isEmail);
      if rej.Some? {
        return rej.value, token;
      }
      var role := ParseRole(req.role).value;
      var doc := PreSave(RegisteredDoc(req, role), true, hash);
      if !Storable(doc) {
        return ServerError, token;
      }
      NormalizeEmailIdempotent(req.email);
      var id := InsertUser(doc);
      token := sign(id, role);
      r := Ok(201);
    }

    /** The corrected `POST /auth/register`: as written, except that a
        student registered into a completed batch is stored as alumni, which
        makes registration keep the alumni invariant. */
    method RegisterSynced(req: Registration, isEmail: string -> bool, hash: string -> string,
                          sign: (Id, Role) -> string) returns (r: Reply, token: string)
      requires Valid()
      modifies this
      ensures Valid()
      ensures companies == old(companies)
      ensures var rej := old(RegisterRejection(users, nextId, req, isEmail));
        && (rej.Some? ==> r == rej.value && users == old(users) && batches == old(batches))
        && (rej.None? ==>
              var role := ParseRole(req.role).value;
              var doc := PreSave(SyncedRegisteredDoc(old(batches), req, role), true, hash);
              && r == (if Storable(doc) then Ok(201) else ServerError)
              && (Storable(doc) ==>
                    && users == old(users)[old(nextId) := doc]
                    && batches == RecountRef(old(batches), users, doc.batch)
                    && token == sign(old(nextId), role))
              && (!Storable(doc) ==> users == old(users) && batches == old(batches)))
      ensures old(CountsAccurate(batches, users)) ==> CountsAccurate(batches, users)
      ensures old(AlumniConsistent(batches, users)) ==> AlumniConsistent(batches, users)
    {
      token := "";
      var rej := RegisterRejection(users, nextId, req, isEmail);
      if rej.Some? {
        return rej.value, token;
      }
      var role := ParseRole(req.role).value;
      var doc := PreSave(SyncedRegisteredDoc(batches, req, role), true, hash);
      if !Storable(doc) {
        return ServerError, token;
      }
      NormalizeEmailIdempotent(req.email);
      var id := InsertUser(doc);
      token := sign(id, role);
      r := Ok(201);
    }

    /** The save step shared by `POST /admin/students` and
        `POST /auth/register`: the new user is stored under a fresh id, and
        the counter of the batch it references is refreshed if that batch
        exists. */
    method InsertUser(doc: User) returns (id: Id)
      requires Valid() && Storable(doc)
      requires doc.email == NormalizeEmail(doc.email)
      requires forall k :: k in users ==> users[k].email != doc.email
      requires doc.studentId.Some? ==> forall k :: k in users ==> users[k].studentId != doc.studentId
      requires doc.role == Admin ==> doc.batch == None
      modifies this
      ensures Valid()
      ensures id == old(nextId) && companies == old(companies)
      ensures users == old(users)[id := doc]
      ensures batches == RecountRef(old(batches), users, doc.batch)
      ensures old(CountsAccurate(batches, users)) ==> CountsAccurate(batches, users)
      ensures old(AlumniConsistent(batches, users)) &&
              (forall b :: b in old(batches) && old(batches)[b].isCompleted && IsStudentOf(doc, b) ==> doc.isAlumni)
        ==> AlumniConsistent(batches, users)
    {
      InsertRecountKeepsCounts(batches, users, nextId, doc);
      InsertRecountKeepsAlumniConsistent(batches, users, nextId, doc);
      id := nextId;
      var bound := Above(nextId + 1, doc.batch);
      InsertKeepsUsersValid(users, id, id, doc, bound);
      users, nextId := users[id := doc], bound;
      if doc.batch.Some? && doc.batch.value in batches {
        UpdateStudentCount(doc.batch.value);
      }
    }

    /** `PUT /students/profile`: the caller's document is loaded, the
        gated paths are assigned one by one, and the document is saved; the
        save is refused when an alumni request names an unknown status. */
    method UpdateProfile(id: Id, req: ProfileRequest) returns (r: Reply)
      requires Valid()
      modifies this
      ensures Valid()
      ensures batches == old(batches) && companies == old(companies) && nextId == old(nextId)
      ensures id !in old(users) ==> r == Error(404, "Student not found") && users == old(users)
      ensures id in old(users) && UpdatedProfile(old(users)[id], req).None? ==>
        r == ServerError && users == old(users)
      ensures id in old(users) && UpdatedProfile(old(users)[id], req).Some? ==>
        r == Ok(200) && users == old(users)[id := UpdatedProfile(old(users)[id], req).value]
    {
      if id !in users {
        return Error(404, "Student not found");
      }
      var s := AssignContact(users[id], req);
      if s.isAlumni {
        var status: Option<Status> := None;
        if req.currentStatus != "" {
          status := ParseStatus(req.currentStatus);
          if status.None? {
            return ServerError;
          }
        }
        s := AssignWork(s, req, status);
      }
      SameKeysKeepsUsersValid(users, nextId, id, s);
      users := users[id := s];
      r := Ok(200);
    }

    /** `POST /upload/profile-picture`: `file` is the stored path of the
        uploaded file, None when no file came; `destroyed` is the asset
        removed from storage. */
    method UploadProfilePicture(id: Id, file: Option<string>) returns (r: Reply, destroyed: Option<string>)
      requires Valid()
      modifies this
      ensures Valid()
      ensures batches == old(batches) && companies == old(companies) && nextId == old(nextId)
      ensures file.None? ==> r == Error(400, "No file uploaded") && destroyed == None && users == old(users)
      ensures file.Some? && id !in old(users) ==> r == Error(404, "User not found") && destroyed == None && users == old(users)
      ensures file.Some? && id in old(users) ==>
        var before := old(users)[id];
        && r == Ok(200)
        && users == old(users)[id := before.(profilePicture := file.value)]
        && destroyed == (if before.profilePicture != "" then Some(ProfileAsset(before.profilePicture)) else None)
    {
      destroyed := None;
      if file.None? {
        return Error(400, "No file uploaded"), destroyed;
      }
      if id !in users {
        return Error(404, "User not found"), destroyed;
      }
      var user := users[id];
      if user.profilePicture != "" {
        destroyed := Some(ProfileAsset(user.profilePicture));
      }
      SameKeysKeepsUsersValid(users, nextId, id, user.(profilePicture := file.value));
      users := users[id := user.(profilePicture := file.value)];
      r := Ok(200);
    }

    /** `POST /upload/resume`: as the picture upload, for students only. */
    method UploadResume(id: Id, file: Option<string>) returns (r: Reply, destroyed: Option<string>)
      requires Valid()
      modifies this
      ensures Valid()
      ensures batches == old(batches) && companies == old(companies) && nextId == old(nextId)
      ensures file.None? ==> r == Error(400, "No file uploaded") && destroyed == None && users == old(users)
      ensures file.Some? && id !in old(users) ==> r == Error(404, "User not found") && destroyed == None && users == old(users)
      ensures file.Some? && id in old(users) && old(users)[id].role != Student ==>
        r == Error(403, "Only students can upload resumes") && destroyed == None && users == old(users)
      ensures file.Some? && id in old(users) && old(users)[id].role == Student ==>
        var before := old(users)[id];
        && r == Ok(200)
        && users == old(users)[id := before.(resume := file.value)]
        && destroyed == (if before.resume != "" then Some(ResumeAsset(before.resume)) else None)
    {
      destroyed := None;
      if file.None? {
        return Error(400, "No file uploaded"), destroyed;
      }
      if id !in users {
        return Error(404, "User not found"), destroyed;
      }
      var user := users[id];
      if user.role != Student {
        return Error(403, "Only students can upload resumes"), destroyed;
      }
      if user.resume != "" {
        destroyed := Some(ResumeAsset(user.resume));
      }
      SameKeysKeepsUsersValid(users, nextId, id, user.(resume := file.value));
      users := users[id := user.(resume := file.value)];
      r := Ok(200);
    }

    /** `DELETE /upload/profile-picture`. */
    method DeleteProfilePicture(id: Id) returns (r: Reply, destroyed: Option<string>)
      requires Valid()
      modifies this
      ensures Valid()
      ensures batches == old(batches) && companies == old(companies) && nextId == old(nextId)
      ensures id !in old(users) ==> r == Error(404, "User not found") && destroyed == None && users == old(users)
      ensures id in old(users) && old(users)[id].profilePicture == "" ==>
        r == Error(400, "No profile picture to delete") && destroyed == None && users == old(users)
      ensures id in old(users) && old(users)[id].profilePicture != "" ==>
        var before := old(users)[id];
        && r == Ok(200)
        && destroyed == Some(ProfileAsset(before.profilePicture))
        && users == old(users)[id := before.(profilePicture := "")]
    {
      destroyed := None;
      if id !in users {
        return Error(404, "User not found"), destroyed;
      }
      var user := users[id];
      if user.profilePicture == "" {
        return Error(400, "No profile picture to delete"), destroyed;
      }
      destroyed := Some(ProfileAsset(user.profilePicture));
      SameKeysKeepsUsersValid(users, nextId, id, user.(profilePicture := ""));
      users := users[id := user.(profilePicture := "")];
      r := Ok(200);
    }

    /** `DELETE /upload/resume`: students only. */
    method DeleteResume(id: Id) returns (r: Reply, destroyed: Option<string>)
      requires Valid()
      modifies this
      ensures Valid()
      ensures batches == old(batches) && companies == old(companies) && nextId == old(nextId)
      ensures id !in old(users) ==> r == Error(404, "User not found") && destroyed == None && users == old(users)
      ensures id in old(users) && old(users)[id].role != Student ==>
        r == Error(403, "Only students can delete resumes") && destroyed == None && users == old(users)
      ensures id in old(users) && old(users)[id].role == Student && old(users)[id].resume == "" ==>
        r == Error(400, "No resume to delete") && destroyed == None && users == old(users)
      ensures id in old(users) && old(users)[id].role == Student && old(users)[id].resume != "" ==>
        var before := old(users)[id];
        && r == Ok(200)
        && destroyed == Some(ResumeAsset(before.resume))
        && users == old(users)[id := before.(resume := "")]
    {
      destroyed := None;
      if id !in users {
        return Error(404, "User not found"), destroyed;
      }
      var user := users[id];
      if user.role != Student {
        return Error(403, "Only students can delete resumes"), destroyed;
      }
      if user.resume == "" {
        return Error(400, "No resume to delete"), destroyed;
      }
      destroyed := Some(ResumeAsset(user.resume));
      SameKeysKeepsUsersValid(users, nextId, id, user.(resume := ""));
      users := users[id := user.(resume := "")];
      r := Ok(200);
    }
  }
}
