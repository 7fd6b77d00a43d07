/** The client's pure helpers: form validators, upload file checks, the
    company-name and status display rules, and the choice of the message
    shown for a failed request. */
module Helpers {
  import opened Wrappers
  import opened Text
  import opened Models

  // ------------------------------------------------ validators

  /** `validatePassword`: `password && password.length >= 6`, read as a
      truth value; an absent password is "". */
  predicate ValidatePassword(password: string)
    ensures ValidatePassword(password) <==> |password| >= 6
  {
    password != "" && |password| >= 6
  }

  /** A password is accepted exactly when it has six characters or more,
      the rule the server's `minlength` applies. */
  lemma ValidatePasswordIff(password: string)
    ensures ValidatePassword(password) <==> PasswordAccepted(password)
  {
  }

  /** `validateStudentId`: the trimmed id is non-empty. */
  predicate ValidateStudentId(studentId: string)
    ensures ValidateStudentId(studentId) <==> Trim(studentId) != ""
  {
    studentId != "" && |Trim(studentId)| > 0
  }

  /** An id is accepted exactly when it holds a character other than white space. */
  lemma ValidateStudentIdIff(studentId: string)
    ensures ValidateStudentId(studentId) <==> !AllSpace(studentId)
  {
    TrimEmptyIffBlank(studentId);
  }

  /** One run of `[^\s@]+`. */
  predicate Plain(t: string) {
    t != [] && forall k :: 0 <= k < |t| ==> !IsSpace(t[k]) && t[k] != '@'
  }

  /** `validateEmail`: the whole string matches `[^\s@]+@[^\s@]+\.[^\s@]+`,
      with `i` the '@' and `j` a dot after it. */
  predicate ValidateEmail(s: string)
    ensures ValidateEmail(s) ==> |s| >= 5
  {
    exists i, j :: 0 <= i < j < |s| && s[i] == '@' && s[j] == '.'
      && Plain(s[..i]) && Plain(s[i + 1..j]) && Plain(s[j + 1..])
  }

  /** Every character of an address split at `i` and `j` into three plain
      runs is free of white space, and only the one at `i` is an `@`. */
  lemma PlainRunsChars(s: string, i: int, j: int)
    requires 0 <= i < j < |s| && s[i] == '@' && s[j] == '.'
    requires Plain(s[..i]) && Plain(s[i + 1..j]) && Plain(s[j + 1..])
    ensures forall k :: 0 <= k < |s| ==> !IsSpace(s[k]) && (k != i ==> s[k] != '@')
  {
    forall k | 0 <= k < |s| ensures !IsSpace(s[k]) && (k != i ==> s[k] != '@') {
      if k < i {
        assert s[k] == s[..i][k];
      } else if i < k < j {
        assert s[k] == s[i + 1..j][k - i - 1];
      } else if j < k {
        assert s[k] == s[j + 1..][k - j - 1];
      }
    }
  }

  /** An accepted address has no white space and exactly one `@`, with a
      non-empty part on each side of it. */
  lemma ValidEmailShape(s: string)
    requires ValidateEmail(s)
    ensures forall k :: 0 <= k < |s| ==> !IsSpace(s[k])
    ensures exists i :: 0 < i < |s| - 1 && s[i] == '@' && '@' !in s[..i] && '@' !in s[i + 1..]
  {
    var i, j :| 0 <= i < j < |s| && s[i] == '@' && s[j] == '.'
      && Plain(s[..i]) && Plain(s[i + 1..j]) && Plain(s[j + 1..]);
    PlainRunsChars(s, i, j);
    var front := s[..i];
    assert '@' !in front by {
      forall k | 0 <= k < |front| ensures front[k] != '@' {
        assert front[k] == s[k];
      }
    }
    var rest := s[i + 1..];
    assert '@' !in rest by {
      forall k | 0 <= k < |rest| ensures rest[k] != '@' {
        assert rest[k] == s[i + 1 + k];
      }
    }
  }

  lemma ValidateEmailAccepts()
    ensures ValidateEmail("ana@campus.edu")
  {
    var s := "ana@campus.edu";
    assert s[..3] == "ana" && s[4..10] == "campus" && s[11..] == "edu";
    assert s[3] == '@' && s[10] == '.';
    assert Plain(s[..3]) && Plain(s[4..10]) && Plain(s[11..]);
  }

  /** An address with no dot after any of its '@'s is refused. */
  lemma ValidateEmailNeedsDot(s: string)
    requires forall i, j :: 0 <= i < j < |s| && s[i] == '@' ==> s[j] != '.'
    ensures !ValidateEmail(s)
  {
  }

  // ------------------------------------------------ file checks

  /** A picked file: its MIME type and its size in bytes. */
  datatype FileInfo = FileInfo(mime: string, size: int)

  datatype FileCheck = Accepted | Rejected(error: string)

  const ImageTypes: seq<string> := ["image/jpeg", "image/jpg", "image/png", "image/gif"]
  const MaxImageSize: int := 5 * 1024 * 1024
  const ResumeTypes: seq<string> := [
    "application/pdf",
    "application/msword",
    "application/vnd.openxmlformats-officedocument.wordprocessingml.document"]
  const MaxResumeSize: int := 10 * 1024 * 1024

  /** `validateImageFile`: the type is checked before the size. */
  function ValidateImageFile(file: FileInfo): (r: FileCheck)
    ensures r == Accepted <==> file.mime in ImageTypes && file.size <= 5242880
    ensures file.mime !in ImageTypes ==> r == Rejected("Please upload only image files (JPEG, PNG, GIF)")
    ensures file.mime in ImageTypes && file.size > 5242880 ==> r == Rejected("Image size must be less than 5MB")
  {
    if file.mime !in ImageTypes then Rejected("Please upload only image files (JPEG, PNG, GIF)")
    else if file.size > MaxImageSize then Rejected("Image size must be less than 5MB")
    else Accepted
  }

  /** `validateResumeFile`: the same order, with a 10 MiB limit. */
  function ValidateResumeFile(file: FileInfo): (r: FileCheck)
    ensures r == Accepted <==> file.mime in ResumeTypes && file.size <= 10485760
    ensures file.mime !in ResumeTypes ==> r == Rejected("Please upload only PDF or DOC files")
    ensures file.mime in ResumeTypes && file.size > 10485760 ==> r == Rejected("Resume size must be less than 10MB")
  {
    if file.mime !in ResumeTypes then Rejected("Please upload only PDF or DOC files")
    else if file.size > MaxResumeSize then Rejected("Resume size must be less than 10MB")
    else Accepted
  }

  /** A file of exactly the limit passes; one byte more does not. An
      oversized file of a wrong type reports its type. */
  lemma FileLimitsExact()
    ensures ValidateImageFile(FileInfo("image/png", 5242880)) == Accepted
    ensures ValidateImageFile(FileInfo("image/png", 5242881)).Rejected?
    ensures ValidateResumeFile(FileInfo("application/pdf", 10485760)) == Accepted
    ensures ValidateResumeFile(FileInfo("application/pdf", 10485761)).Rejected?
    ensures ValidateImageFile(FileInfo("image/bmp", 9999999)) == Rejected("Please upload only image files (JPEG, PNG, GIF)")
  {
  }

  // ------------------------------------------------ display rules

  /** `formatCompanyName`: "Not specified" for an empty name, otherwise the
      first character upper-cased and the rest kept. */
  function FormatCompanyName(company: string): (r: string)
    ensures company == "" ==> r == "Not specified"
    ensures company != "" ==> |r| == |company| && r[0] == UpperChar(company[0]) && r[1..] == company[1..]
  {
    if company == "" then "Not specified" else [UpperChar(company[0])] + company[1..]
  }

  /** Formatting a formatted name changes nothing. */
  lemma FormatCompanyNameIdempotent(company: string)
    ensures FormatCompanyName(FormatCompanyName(company)) == FormatCompanyName(company)
  {
    if company != "" {
      var r := FormatCompanyName(company);
      assert r[0] == UpperChar(company[0]);
      assert UpperChar(r[0]) == r[0];
      assert [r[0]] + r[1..] == r;
    }
  }

  /** The `colors[status] || '#757575'` lookup. */
  function GetStatusColor(status: string): (r: string)
    ensures status !in StatusNames ==> r == "#757575"
  {
    if status == "studying" then "#2196f3"
    else if status == "job_searching" then "#ff9800"
    else if status == "employed" then "#4caf50"
    else if status == "entrepreneur" then "#9c27b0"
    else if status == "higher_studies" then "#673ab7"
    else "#757575"
  }

  /** The `labels[status] || status` lookup. */
  function GetStatusLabel(status: string): (r: string)
    ensures status !in StatusNames ==> r == status
  {
    if status == "studying" then "Currently Studying"
    else if status == "job_searching" then "Job Searching"
    else if status == "employed" then "Employed"
    else if status == "entrepreneur" then "Entrepreneur"
    else if status == "higher_studies" then "Higher Studies"
    else status
  }

  /** The five statuses get five different labels and colours, none of
      them the grey of an unknown status. */
  lemma StatusDisplayDistinct(a: Status, b: Status)
    ensures GetStatusColor(StatusName(a)) != "#757575"
    ensures a != b ==> GetStatusLabel(StatusName(a)) != GetStatusLabel(StatusName(b))
    ensures a != b ==> GetStatusColor(StatusName(a)) != GetStatusColor(StatusName(b))
  {
  }

  // ------------------------------------------------ handleApiError

  /** The body of an error response: its `message` ("" when absent) and its
      `errors` array (each element's `msg`, "" when absent). */
  datatype ErrorBody = ErrorBody(message: string, errors: Option<seq<string>>)

  /** A failed request: the response body when there was a response, and
      the error's own message. */
  datatype ApiError = ApiError(data: Option<ErrorBody>, message: string)

  /** `handleApiError`: the server's message, else the validator messages
      joined, else the error's message, else a fixed text. An `errors`
      array is truthy even when empty. */
  function HandleApiError(error: ApiError): (r: string)
    ensures error.data.Some? && error.data.value.message != "" ==> r == error.data.value.message
    ensures error.data.Some? && error.data.value.message == "" && error.data.value.errors.Some? ==>
            r == Join(error.data.value.errors.value, ", ")
    ensures (error.data.None? || (error.data.value.message == "" && error.data.value.errors.None?)) ==>
            r == if error.message != "" then error.message else "Something went wrong"
  {
    if error.data.Some? && error.data.value.message != "" then error.data.value.message
    else if error.data.Some? && error.data.value.errors.Some? then Join(error.data.value.errors.value, ", ")
    else if error.message != "" then error.message
    else "Something went wrong"
  }

  /** Without a validator list some message is always shown. The one way to
      get an empty text is an empty `errors` list, or one whose only entry
      has no `msg`. */
  lemma HandleApiErrorNonEmpty(error: ApiError)
    requires error.data.None? || error.data.value.message != "" || error.data.value.errors.None?
    ensures HandleApiError(error) != ""
  {
  }

  lemma HandleApiErrorEmptyList(message: string)
    ensures HandleApiError(ApiError(Some(ErrorBody("", Some([]))), message)) == ""
  {
  }
}
