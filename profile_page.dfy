/** The profile page's list editing and form loading: adding and removing a
    skill, the request an added achievement sends, and the form fields
    `fetchProfile` derives from the stored profile. The React state around
    them is not modelled: each handler is a function from the state it reads
    to the state it sets. */
module ProfilePage {
  import opened Wrappers
  import opened Text
  import opened Models
  import opened Profile
  import opened Listing

  predicate Distinct(s: seq<string>) {
    forall i, j :: 0 <= i < j < |s| ==> s[i] != s[j]
  }

  /** The skill list and the text box after `handleAddSkill`. */
  datatype SkillForm = SkillForm(skills: seq<string>, newSkill: string)

  /** `handleAddSkill`: the trimmed entry is appended, and the box cleared,
      only when it is non-empty and not listed yet. */
  function AddSkill(form: SkillForm): (r: SkillForm)
    ensures var t := Trim(form.newSkill);
      if t != "" && t !in form.skills then r == SkillForm(form.skills + [t], "") else r == form
  {
    var t := Trim(form.newSkill);
    if t != "" && t !in form.skills then SkillForm(form.skills + [t], "") else form
  }

  /** Adding never introduces a duplicate or an empty or padded entry, and
      keeps every earlier skill where it was. */
  lemma AddSkillKeepsDistinct(form: SkillForm)
    requires Distinct(form.skills)
    ensures Distinct(AddSkill(form).skills)
    ensures AddSkill(form).skills[..|form.skills|] == form.skills
    ensures forall i :: |form.skills| <= i < |AddSkill(form).skills| ==>
              AddSkill(form).skills[i] != "" && Trim(AddSkill(form).skills[i]) == AddSkill(form).skills[i]
  {
    var t := Trim(form.newSkill);
    if t != "" && t !in form.skills {
      TrimIdempotent(form.newSkill);
    }
  }

  /** `handleRemoveSkill`: every occurrence of the skill goes, the rest
      keep their order. */
  function RemoveSkill(skills: seq<string>, skill: string): (r: seq<string>)
    ensures forall i :: 0 <= i < |r| ==> r[i] != skill
  {
    FilterKeeps(skills, (s: string) => s != skill);
    Filter(skills, (s: string) => s != skill)
  }

  lemma RemoveSkillRemoves(skills: seq<string>, skill: string, other: string)
    ensures skill !in RemoveSkill(skills, skill)
    ensures other != skill ==> multiset(RemoveSkill(skills, skill))[other] == multiset(skills)[other]
  {
    FilterCount(skills, (s: string) => s != skill, skill);
    FilterCount(skills, (s: string) => s != skill, other);
  }

  /** Removing the skill just added gives the list back. */
  lemma RemoveUndoesAdd(form: SkillForm)
    requires Trim(form.newSkill) != "" && Trim(form.newSkill) !in form.skills
    ensures RemoveSkill(AddSkill(form).skills, Trim(form.newSkill)) == form.skills
  {
    var t := Trim(form.newSkill);
    var p := (s: string) => s != t;
    FilterAppend(form.skills, [t], p);
    FilterAll(form.skills, p);
    assert Filter([t], p) == [];
  }

  /** `handleAddAchievement`: nothing is sent unless both title and
      description are given; otherwise a profile update whose only path is
      the achievement list with the new entry at the end. */
  function AchievementRequest(achievements: Option<seq<Achievement>>, entry: Achievement)
    : (r: Option<ProfileRequest>)
    ensures r.Some? <==> entry.title != "" && entry.description != ""
    ensures r.Some? ==> r.value.achievements == Some(achievements.GetOr([]) + [entry])
  {
    if entry.title == "" || entry.description == "" then None
    else Some(ProfileRequest("", "", "", "", None, "", None, Some(achievements.GetOr([]) + [entry]), "", "", "", ""))
  }

  /** The request appends exactly the new entry to an alumnus's stored
      achievements and touches nothing else. */
  lemma AchievementAppended(u: User, entry: Achievement)
    requires u.isAlumni && entry.title != "" && entry.description != ""
    ensures UpdatedProfile(u, AchievementRequest(Some(u.achievements), entry).value)
            == Some(u.(achievements := u.achievements + [entry]))
  {
  }

  /** The profile as `GET /students/profile` sends it: a path is None when
      the document lacks it or holds `null`. */
  datatype FetchedProfile = FetchedProfile(
    phone: Option<string>, jobRole: Option<string>, company: Option<string>,
    workLocation: Option<string>, salary: Option<int>, experience: Option<string>,
    skills: Option<seq<string>>, linkedinProfile: Option<string>, githubProfile: Option<string>,
    portfolioWebsite: Option<string>, currentStatus: Option<string>)

  /** The edit form. The salary box is None when it holds `''` and
      `Some(v)` when it holds a truthy value that reads as the number `v`. */
  datatype FormData = FormData(
    phone: string, jobRole: string, company: string, workLocation: string, salary: Option<int>,
    experience: string, skills: seq<string>, linkedinProfile: string, githubProfile: string,
    portfolioWebsite: string, currentStatus: string)

  /** `value || ''` on a string path. */
  function OrEmpty(v: Option<string>): string {
    if v.Some? then v.value else ""
  }

  /** `fetchProfile`: every missing path becomes '', the skills [] and the
      status "studying". */
  function FetchProfile(d: FetchedProfile): (f: FormData)
    ensures d.currentStatus.None? || d.currentStatus == Some("") ==> f.currentStatus == "studying"
    ensures d.currentStatus.Some? && d.currentStatus.value != "" ==> f.currentStatus == d.currentStatus.value
    ensures d.skills.None? ==> f.skills == []
    ensures d.skills.Some? ==> f.skills == d.skills.value
    ensures d.salary.None? || d.salary == Some(0) ==> f.salary.None?
    ensures d.salary.Some? && d.salary.value != 0 ==> f.salary == d.salary
    ensures d.phone.None? ==> f.phone == ""
    ensures d.phone.Some? ==> f.phone == d.phone.value
    ensures d.jobRole.None? ==> f.jobRole == ""
    ensures d.jobRole.Some? ==> f.jobRole == d.jobRole.value
    ensures d.company.None? ==> f.company == ""
    ensures d.company.Some? ==> f.company == d.company.value
    ensures d.workLocation.None? ==> f.workLocation == ""
    ensures d.workLocation.Some? ==> f.workLocation == d.workLocation.value
    ensures d.experience.None? ==> f.experience == ""
    ensures d.experience.Some? ==> f.experience == d.experience.value
    ensures d.linkedinProfile.None? ==> f.linkedinProfile == ""
    ensures d.linkedinProfile.Some? ==> f.linkedinProfile == d.linkedinProfile.value
    ensures d.githubProfile.None? ==> f.githubProfile == ""
    ensures d.githubProfile.Some? ==> f.githubProfile == d.githubProfile.value
    ensures d.portfolioWebsite.None? ==> f.portfolioWebsite == ""
    ensures d.portfolioWebsite.Some? ==> f.portfolioWebsite == d.portfolioWebsite.value
  {
    FormData(
      OrEmpty(d.phone), OrEmpty(d.jobRole), OrEmpty(d.company), OrEmpty(d.workLocation),
      if d.salary.Some? && d.salary.value != 0 then d.salary else None, OrEmpty(d.experience), d.skills.GetOr([]),
      OrEmpty(d.linkedinProfile), OrEmpty(d.githubProfile), OrEmpty(d.portfolioWebsite),
      if d.currentStatus.Some? && d.currentStatus.value != "" then d.currentStatus.value else "studying")
  }

  /** What the profile read sends for a stored user. */
  function Fetched(u: User): FetchedProfile {
    FetchedProfile(
      Some(u.phone), Some(u.jobRole), Some(u.company), Some(u.workLocation), Some(u.salary),
      Some(u.experience), Some(u.skills), Some(u.linkedinProfile), Some(u.githubProfile),
      Some(u.portfolioWebsite), Some(StatusName(u.currentStatus)))
  }

  /** `handleSave`: the form is sent as the update body; it has no
      achievements path. */
  function SaveRequest(f: FormData): (r: ProfileRequest)
    ensures r.achievements.None? && r.skills == Some(f.skills)
  {
    ProfileRequest(f.phone, f.jobRole, f.company, f.workLocation, f.salary, f.experience,
                   Some(f.skills), None, f.linkedinProfile, f.githubProfile, f.portfolioWebsite,
                   f.currentStatus)
  }

  /** Loading the form and saving it unedited leaves the stored profile as
      it was, for students and alumni alike (given a phone already trimmed,
      as the phone setter stores it). */
  lemma UneditedSaveChangesNothing(u: User)
    requires Trim(u.phone) == u.phone
    ensures UpdatedProfile(u, SaveRequest(FetchProfile(Fetched(u)))) == Some(u)
  {
    var st := StatusName(u.currentStatus);
    assert st != "";
    assert ParseStatus(st) == Some(u.currentStatus);
  }
}
