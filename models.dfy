/** The three stored document kinds (Batch, User, Company) with their schema
    defaults, setters, enums and required-field rules, and the User
    pre-save password hook. */
module Models {
  import opened Wrappers
  import opened Text

  /** Document identities. One counter serves all collections, as object
      ids are unique across the database; id order is insertion order. */
  type Id = nat

  // ---------------------------------------------------------------- Batch

  datatype Batch = Batch(
    batchName: string,
    year: int,
    course: string,
    department: string,
    startDate: int,
    endDate: int,
    isCompleted: bool,
    completedDate: Option<int>,
    totalStudents: int,
    description: string)

  /** A batch document as the schema builds it from the create request: the
      `trim` setters on name and description, and the defaults "not
      completed, no completion date, no students". */
  function NewBatch(batchName: string, year: int, course: string, department: string,
                    startDate: int, endDate: int, description: string): (b: Batch)
    ensures !b.isCompleted && b.completedDate == None && b.totalStudents == 0
    ensures b.batchName == Trim(batchName) && b.description == Trim(description)
    ensures b.year == year && b.course == course && b.department == department
    ensures b.startDate == startDate && b.endDate == endDate
  {
    Batch(Trim(batchName), year, course, department, startDate, endDate,
          false, None, 0, Trim(description))
  }

  /** The `required` rules of the batch schema, checked on save. Year and the
      two dates are present by construction of `Batch`. */
  predicate BatchStorable(b: Batch) {
    b.batchName != "" && b.course != "" && b.department != ""
  }

  // ---------------------------------------------------------------- User

  datatype Role = Student | Admin

  function RoleName(r: Role): string {
    match r
    case Student => "student"
    case Admin => "admin"
  }

  /** The `role` enum: exactly the two names are accepted. */
  function ParseRole(s: string): (r: Option<Role>)
    ensures r.Some? <==> s == "student" || s == "admin"
    ensures r.Some? ==> RoleName(r.value) == s
  {
    if s == "student" then Some(Student)
    else if s == "admin" then Some(Admin)
    else None
  }

  datatype Status = Studying | JobSearching | Employed | Entrepreneur | HigherStudies

  const StatusNames: seq<string> :=
    ["studying", "job_searching", "employed", "entrepreneur", "higher_studies"]

  function StatusName(st: Status): (s: string)
    ensures s in StatusNames
  {
    match st
    case Studying => "studying"
    case JobSearching => "job_searching"
    case Employed => "employed"
    case Entrepreneur => "entrepreneur"
    case HigherStudies => "higher_studies"
  }

  /** The `currentStatus` enum: a string is accepted exactly when it names
      one of the five statuses, and then it names the status it is parsed as. */
  function ParseStatus(s: string): (r: Option<Status>)
    ensures r.Some? <==> s in StatusNames
    ensures r.Some? ==> StatusName(r.value) == s
    ensures forall st :: s == StatusName(st) ==> r == Some(st)
  {
    if s == "studying" then Some(Studying)
    else if s == "job_searching" then Some(JobSearching)
    else if s == "employed" then Some(Employed)
    else if s == "entrepreneur" then Some(Entrepreneur)
    else if s == "higher_studies" then Some(HigherStudies)
    else None
  }

  datatype Achievement = Achievement(title: string, description: string, date: string)

  /** A user document. Absent strings are "", an absent year is None; the
      `password` field holds what the pre-save hook stored (a hash). */
  datatype User = User(
    name: string,
    email: string,
    password: string,
    role: Role,
    studentId: Option<string>,
    batch: Option<Id>,
    phone: string,
    profilePicture: string,
    resume: string,
    course: string,
    department: string,
    year: Option<int>,
    isAlumni: bool,
    jobRole: string,
    company: string,
    workLocation: string,
    salary: int,
    experience: string,
    skills: seq<string>,
    achievements: seq<Achievement>,
    linkedinProfile: string,
    githubProfile: string,
    portfolioWebsite: string,
    currentStatus: Status)

  /** A user document built from the common fields: the `trim` setters on
      name and phone, the `lowercase`+`trim` setters on the e-mail, no student
      fields, and every other path at its schema default. */
  function NewUser(name: string, email: string, password: string, role: Role, phone: string): (u: User)
    ensures u.name == Trim(name) && u.email == NormalizeEmail(email) && u.phone == Trim(phone)
    ensures u.password == password && u.role == role
    ensures u.studentId == None && u.batch == None && u.course == "" && u.department == "" && u.year == None
    ensures !u.isAlumni && u.currentStatus == Studying && u.salary == 0
    ensures u.jobRole == "" && u.company == "" && u.workLocation == "" && u.experience == ""
    ensures u.skills == [] && u.achievements == []
    ensures u.profilePicture == "" && u.resume == ""
    ensures u.linkedinProfile == "" && u.githubProfile == "" && u.portfolioWebsite == ""
  {
    User(Trim(name), NormalizeEmail(email), password, role, None, None, Trim(phone), "", "",
         "", "", None, false, "", "", "", 0, "", [], [], "", "", "", Studying)
  }

  /** The `required` rules of the user schema, checked on every save: name and
      e-mail are required of everyone; batch, course, department and year
      exactly of students. (The password's `minlength` is checked where a
      plain-text password is stored, see `PasswordAccepted`.) */
  predicate Storable(u: User) {
    && u.name != "" && u.email != ""
    && (u.role == Student ==> u.batch.Some? && u.course != "" && u.department != "" && u.year.Some?)
  }

  /** The student paths are required exactly of students: a document built
      from the common fields alone can be saved as an admin (given a name
      and an e-mail that survive their setters) but never as a student, and
      an admin stays storable whatever its student paths hold. */
  lemma StudentFieldsRequiredOfStudentsOnly(name: string, email: string, password: string, phone: string, u: User)
    ensures Storable(NewUser(name, email, password, Admin, phone)) <==> Trim(name) != "" && NormalizeEmail(email) != ""
    ensures !Storable(NewUser(name, email, password, Student, phone))
    ensures u.role == Admin ==> (Storable(u) <==> Storable(u.(batch := None, course := "", department := "", year := None)))
  {
  }

  /** The `minlength: 6` rule on a password about to be hashed. */
  predicate PasswordAccepted(plain: string) {
    |plain| >= 6
  }

  /** The pre-save hook: the password path is replaced by its hash only on a
      save where it was modified; any other save keeps the stored hash, and
      no other path is touched. */
  function PreSave(u: User, passwordModified: bool, hash: string -> string): (r: User)
    ensures passwordModified ==> r.password == hash(u.password)
    ensures !passwordModified ==> r == u
    ensures r.(password := u.password) == u
  {
    if passwordModified then u.(password := hash(u.password)) else u
  }

  // ---------------------------------------------------------------- Company

  /** One entry of `sharedStudentLists`: the batch shared, when, the user ids
      listed at that moment, and the message. */
  datatype SharedList = SharedList(batch: Id, sharedDate: int, students: seq<Id>, message: string)

  datatype Company = Company(
    companyName: string,
    contactEmail: string,
    contactPerson: string,
    contactPhone: string,
    website: string,
    description: string,
    industry: string,
    location: string,
    sharedStudentLists: seq<SharedList>)

  /** A company document built from the create request: every path trimmed,
      the contact e-mail also lower-cased, and no shared lists yet. */
  function NewCompany(companyName: string, contactEmail: string, contactPerson: string,
                      contactPhone: string, website: string, description: string,
                      industry: string, location: string): (c: Company)
    ensures c.sharedStudentLists == []
    ensures c.contactEmail == NormalizeEmail(contactEmail)
    ensures c.companyName == Trim(companyName) && c.contactPerson == Trim(contactPerson)
    ensures c.contactPhone == Trim(contactPhone) && c.website == Trim(website)
    ensures c.description == Trim(description) && c.industry == Trim(industry)
    ensures c.location == Trim(location)
  {
    Company(Trim(companyName), NormalizeEmail(contactEmail), Trim(contactPerson),
            Trim(contactPhone), Trim(website), Trim(description), Trim(industry),
            Trim(location), [])
  }

  /** The `required` rules of the company schema; the optional paths may be "". */
  predicate CompanyStorable(c: Company) {
    c.companyName != "" && c.contactEmail != "" && c.contactPerson != ""
  }

  /** A company needs only its name, contact e-mail and contact person; the
      five optional paths may all be left empty, and no optional path can
      make a company storable without the three. */
  lemma OptionalCompanyPaths(companyName: string, contactEmail: string, contactPerson: string,
                             contactPhone: string, website: string, description: string,
                             industry: string, location: string)
    ensures CompanyStorable(NewCompany(companyName, contactEmail, contactPerson, "", "", "", "", ""))
        <==> Trim(companyName) != "" && NormalizeEmail(contactEmail) != "" && Trim(contactPerson) != ""
    ensures CompanyStorable(NewCompany(companyName, contactEmail, contactPerson, contactPhone, website, description, industry, location))
        <==> CompanyStorable(NewCompany(companyName, contactEmail, contactPerson, "", "", "", "", ""))
  {
  }
}
