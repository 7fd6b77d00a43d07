/** The self-service profile update `PUT /students/profile`: which paths a
    student may write, gated on the alumni flag, and the truthy-value rule
    for every write. */
module Profile {
  import opened Wrappers
  import opened Text
  import opened Models

  /** The twelve paths the handler destructures from the body. Absent or
      falsy text is ""; the two arrays are None when absent (an empty array
      is truthy, so `Some([])` does overwrite). The salary is None when it is
      absent or falsy (`''` or the number 0) and `Some(v)` when it is truthy
      and casts to `v`: the text "0" that the edit form sends is truthy, so
      it arrives as `Some(0)` and is written. */
  datatype ProfileRequest = ProfileRequest(
    phone: string, jobRole: string, company: string, workLocation: string,
    salary: Option<int>, experience: string,
    skills: Option<seq<string>>, achievements: Option<seq<Achievement>>,
    linkedinProfile: string, githubProfile: string, portfolioWebsite: string,
    currentStatus: string)

  /** The five paths every student may write: phone (through its `trim`
      setter), the three links and the skill list, each only when supplied. */
  function ContactEdited(u: User, req: ProfileRequest): (r: User)
    ensures r.(phone := u.phone, linkedinProfile := u.linkedinProfile, githubProfile := u.githubProfile,
               portfolioWebsite := u.portfolioWebsite, skills := u.skills) == u
    ensures r.phone == (if req.phone != "" then Trim(req.phone) else u.phone)
    ensures r.linkedinProfile == (if req.linkedinProfile != "" then req.linkedinProfile else u.linkedinProfile)
    ensures r.githubProfile == (if req.githubProfile != "" then req.githubProfile else u.githubProfile)
    ensures r.portfolioWebsite == (if req.portfolioWebsite != "" then req.portfolioWebsite else u.portfolioWebsite)
    ensures r.skills == (if req.skills.Some? then req.skills.value else u.skills)
  {
    u.(phone := if req.phone != "" then Trim(req.phone) else u.phone,
       linkedinProfile := if req.linkedinProfile != "" then req.linkedinProfile else u.linkedinProfile,
       githubProfile := if req.githubProfile != "" then req.githubProfile else u.githubProfile,
       portfolioWebsite := if req.portfolioWebsite != "" then req.portfolioWebsite else u.portfolioWebsite,
       skills := if req.skills.Some? then req.skills.value else u.skills)
  }

  /** The job paths only alumni may write, each only when supplied. */
  function JobEdited(u: User, req: ProfileRequest): (r: User)
    ensures r.(jobRole := u.jobRole, company := u.company, workLocation := u.workLocation,
               salary := u.salary) == u
    ensures r.jobRole == (if req.jobRole != "" then req.jobRole else u.jobRole)
    ensures r.company == (if req.company != "" then req.company else u.company)
    ensures r.workLocation == (if req.workLocation != "" then req.workLocation else u.workLocation)
    ensures r.salary == (if req.salary.Some? then req.salary.value else u.salary)
  {
    u.(jobRole := if req.jobRole != "" then req.jobRole else u.jobRole,
       company := if req.company != "" then req.company else u.company,
       workLocation := if req.workLocation != "" then req.workLocation else u.workLocation,
       salary := if req.salary.Some? then req.salary.value else u.salary)
  }

  /** The career paths only alumni may write, each only when supplied; the
      status has already been parsed against the enum. */
  function CareerEdited(u: User, req: ProfileRequest, status: Option<Status>): (r: User)
    ensures r.(experience := u.experience, achievements := u.achievements,
               currentStatus := u.currentStatus) == u
    ensures r.experience == (if req.experience != "" then req.experience else u.experience)
    ensures r.achievements == (if req.achievements.Some? then req.achievements.value else u.achievements)
    ensures r.currentStatus == (if status.Some? then status.value else u.currentStatus)
  {
    u.(experience := if req.experience != "" then req.experience else u.experience,
       achievements := if req.achievements.Some? then req.achievements.value else u.achievements,
       currentStatus := if status.Some? then status.value else u.currentStatus)
  }

  /** Everything an alumni request adds to the contact paths. */
  function WorkEdited(u: User, req: ProfileRequest, status: Option<Status>): User {
    CareerEdited(JobEdited(u, req), req, status)
  }

  /** The paths a profile update can never reach. */
  predicate SameIdentity(a: User, b: User) {
    && a.name == b.name && a.email == b.email && a.password == b.password && a.role == b.role
    && a.studentId == b.studentId && a.batch == b.batch && a.isAlumni == b.isAlumni
    && a.course == b.course && a.department == b.department && a.year == b.year
    && a.profilePicture == b.profilePicture && a.resume == b.resume
  }

  /** The document the handler saves, or None when the save is refused: an
      alumni request naming a status outside the enum fails validation.
      A non-alumni student changes at most the five contact paths whatever
      the request holds; nobody changes an identity path. */
  function UpdatedProfile(u: User, req: ProfileRequest): (r: Option<User>)
    ensures r.None? <==> u.isAlumni && req.currentStatus != "" && ParseStatus(req.currentStatus).None?
    ensures r.Some? ==> SameIdentity(r.value, u)
    ensures !u.isAlumni ==> r == Some(ContactEdited(u, req))
    ensures !u.isAlumni ==> r.value.(phone := u.phone, linkedinProfile := u.linkedinProfile,
                                     githubProfile := u.githubProfile, portfolioWebsite := u.portfolioWebsite,
                                     skills := u.skills) == u
    ensures u.isAlumni && r.Some? ==>
      r.value == WorkEdited(ContactEdited(u, req), req, if req.currentStatus != "" then ParseStatus(req.currentStatus) else None)
  {
    if !u.isAlumni then Some(ContactEdited(u, req))
    else if req.currentStatus != "" && ParseStatus(req.currentStatus).None? then None
    else Some(WorkEdited(ContactEdited(u, req), req, if req.currentStatus != "" then ParseStatus(req.currentStatus) else None))
  }

  /** A request with nothing truthy in it saves the document as it was. */
  lemma EmptyRequestKeepsProfile(u: User)
    ensures UpdatedProfile(u, ProfileRequest("", "", "", "", None, "", None, None, "", "", "", "")) == Some(u)
  {
  }

  /** For a non-alumni student the work paths keep their values whatever is sent. */
  lemma NonAlumniKeepsWorkFields(u: User, req: ProfileRequest)
    requires !u.isAlumni
    ensures var v := UpdatedProfile(u, req).value;
            && v.jobRole == u.jobRole && v.company == u.company && v.workLocation == u.workLocation
            && v.salary == u.salary && v.experience == u.experience
            && v.achievements == u.achievements && v.currentStatus == u.currentStatus
  {
  }

  /** Sending the same request again changes nothing more: each write sets a
      path to a value determined by the request alone. */
  lemma UpdateIdempotent(u: User, req: ProfileRequest)
    requires UpdatedProfile(u, req).Some?
    ensures UpdatedProfile(UpdatedProfile(u, req).value, req) == UpdatedProfile(u, req)
  {
  }
}
