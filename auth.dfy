/** Registration and login: the request validators, the document a
    registration builds for each role, and the login decision. Hashing,
    hash comparison and token signing are parameters. */
module Auth {
  import opened Wrappers
  import opened Text
  import opened Models
  import opened Queries
  import opened Http

  /** The body of `POST /auth/register`; "" and None stand for absent values. */
  datatype Registration = Registration(
    name: string, email: string, password: string, role: string, studentId: string,
    batch: Option<Id>, course: string, department: string, year: Option<int>, phone: string)

  /** The route's validator chain: the role must name one of the two roles. */
  predicate RegistrationValid(req: Registration, isEmail: string -> bool) {
    req.name != "" && isEmail(req.email) && PasswordAccepted(req.password) && ParseRole(req.role).Some?
  }

  /** The document a registration builds (before the password hook). Only
      a student receives the student paths; an admin gets name, e-mail,
      password, role and phone, with everything else at its default. The
      alumni flag is never set. An empty student id is stored as absent. */
  function RegisteredDoc(req: Registration, role: Role): (u: User)
    ensures role == Admin ==> u == NewUser(req.name, req.email, req.password, Admin, req.phone)
    ensures role == Student ==>
      u == NewUser(req.name, req.email, req.password, Student, req.phone).(
        studentId := if req.studentId != "" then Some(req.studentId) else None,
        batch := req.batch, course := req.course, department := req.department, year := req.year)
    ensures u.role == role && !u.isAlumni
  {
    var base := NewUser(req.name, req.email, req.password, role, req.phone);
    if role == Student then
      base.(studentId := if req.studentId != "" then Some(req.studentId) else None,
            batch := req.batch, course := req.course, department := req.department, year := req.year)
    else base
  }

  /** An admin registration never references a batch or holds a student id,
      whatever the request carries. */
  lemma AdminRegistrationUnbatched(req: Registration)
    ensures RegisteredDoc(req, Admin).batch == None && RegisteredDoc(req, Admin).studentId == None
  {
  }

  /** The reply of `POST /auth/login`: the token and the user it was issued
      for, or the rejection. */
  datatype LoginReply = LoggedIn(token: string, user: Id) | Rejected(reply: Reply)

  const InvalidCredentials: Reply := Error(400, "Invalid credentials")

  /** The login decision: validation, then the user with the (normalised)
      e-mail, then the hash comparison. Both failures give the same reply. */
  function Login(users: map<Id, User>, n: nat, email: string, password: Option<string>,
                 isEmail: string -> bool, compare: (string, string) -> bool,
                 sign: (Id, Role) -> string): (r: LoginReply)
    requires forall k :: k in users ==> k < n
    ensures !isEmail(email) || password.None? ==> r == Rejected(InvalidInput)
    ensures r.LoggedIn? ==>
      && r.user in users && users[r.user].email == NormalizeEmail(email)
      && compare(password.value, users[r.user].password)
      && r.token == sign(r.user, users[r.user].role)
    ensures isEmail(email) && password.Some? && (forall k :: k in users ==> users[k].email != NormalizeEmail(email))
      ==> r == Rejected(InvalidCredentials)
    ensures r.Rejected? && isEmail(email) && password.Some? ==> r.reply == InvalidCredentials
  {
    if !isEmail(email) || password.None? then Rejected(InvalidInput)
    else
      match FindOne(users, (u: User) => u.email == NormalizeEmail(email), n)
      case None => Rejected(InvalidCredentials)
      case Some(k) =>
        if compare(password.value, users[k].password) then LoggedIn(sign(k, users[k].role), k)
        else Rejected(InvalidCredentials)
  }

  /** With unique e-mails, a login succeeds exactly when some user holds the
      normalised e-mail and the password matches that user's hash, and it is
      then that user who is logged in. */
  lemma LoginIff(users: map<Id, User>, n: nat, email: string, password: string,
                 isEmail: string -> bool, compare: (string, string) -> bool,
                 sign: (Id, Role) -> string, k: Id)
    requires forall j :: j in users ==> j < n
    requires UniqueEmails(users) && isEmail(email)
    requires k in users && users[k].email == NormalizeEmail(email)
    ensures Login(users, n, email, Some(password), isEmail, compare, sign).LoggedIn?
            <==> compare(password, users[k].password)
    ensures Login(users, n, email, Some(password), isEmail, compare, sign).LoggedIn? ==>
            Login(users, n, email, Some(password), isEmail, compare, sign).user == k
  {
    var f := FindOne(users, (u: User) => u.email == NormalizeEmail(email), n);
    assert f.Some?;
    assert f.value == k;
  }

  /** An unknown e-mail and a wrong password are indistinguishable to the caller. */
  lemma LoginFailuresUniform(users: map<Id, User>, n: nat, email1: string, email2: string,
                             password1: string, password2: string,
                             isEmail: string -> bool, compare: (string, string) -> bool,
                             sign: (Id, Role) -> string)
    requires forall j :: j in users ==> j < n
    requires isEmail(email1) && isEmail(email2)
    requires forall j :: j in users ==> users[j].email != NormalizeEmail(email1)
    requires Login(users, n, email2, Some(password2), isEmail, compare, sign).Rejected?
    ensures Login(users, n, email1, Some(password1), isEmail, compare, sign)
         == Login(users, n, email2, Some(password2), isEmail, compare, sign)
  {
  }
}
