# Campus alumni manager — a Dafny model

This project models the decision logic of a campus alumni manager. The
manager is an Express/Mongo server holding three collections: batches,
users (students and administrators) and companies. A React client sits in
front of it.

**Server side**
- The store is one class, `Server.Store`. It holds the three collections as
  maps from document id to document, plus the id counter.
- Every route handler that writes becomes a method on the store. Its
  contract gives the reply and the whole new state, for each guard in the
  order the handler checks them.
- Two invariants are proved about these methods:
  - **alumni consistency**: every student of a completed batch is alumni;
  - **count accuracy**: every batch's cached `totalStudents` equals the
    number of users referencing the batch.
- Pure functions cover:
  - the schema rules: defaults, setters, enums, the role-conditional
    required fields, and the pre-save hash hook;
  - the read routes: alumni detail, company list, student statistics with
    the top-companies aggregation, and the admin dashboard;
  - the login decision;
  - the `publicId` extraction of the upload routes.

**Client side** (pure functions)
- The helpers: validators, file checks, `filterData`, `sortData` and
  `getNestedValue` over a model of JSON values, the status lookups,
  `formatCompanyName` and `handleApiError`.
- The `ProtectedRoute` decision table.
- The skill and achievement editing and the form loading of the profile
  page.

**Parameters and omissions**
- Password hashing and comparison, token signing and the e-mail validator
  are function parameters: `hash`, `compare`, `sign`, `isEmail`.
- The clock is a parameter, `now`.
- A file the storage service removes is an output, `destroyed`. The storage
  call itself is left out.

**Behaviour the model keeps exactly as the code has it:**
- Completing an already completed batch succeeds again and overwrites
  `completedDate`. `Membership.RecompletionOnlyMovesDate` proves the
  second call changes nothing else.
- `updateStudentCount` counts every user referencing the batch, with no
  role filter. `Queries.MembersAreStudents` proves this equals the student
  count whenever administrators have no batch, which the store keeps as an
  invariant.
- An administrator's reassignment of a student neither recounts the
  batches nor updates the alumni flag. See the findings below.

## Model

| member | source | states |
|---|---|---|
| Models.NewBatch | server/models/Batch.js:3-47 | a new batch is not completed, has no completion date and no students; name and description are trimmed, the other paths are as given |
| Models.ParseRole | server/models/User.js:22-26 | a role name is accepted exactly when it is "student" or "admin", and parsing inverts naming |
| Models.StatusName | server/models/User.js:107-111 | every status is named by one of the five enum values |
| Models.ParseStatus | server/models/User.js:107-111 | a status name is accepted exactly when it is one of the five, and parsing and naming are mutually inverse |
| Models.NewUser | server/models/User.js:4-111 | name and phone are trimmed, the e-mail lower-cased and trimmed; no student paths; not alumni, status "studying", salary 0, every work, list and asset path empty |
| Models.StudentFieldsRequiredOfStudentsOnly | server/models/User.js:32-61 | a document without student paths saves as an admin (given a name and e-mail) but never as a student; an admin's storability does not depend on its student paths |
| Models.PreSave | server/models/User.js:117-127 | the password is replaced by its hash exactly on a save that modified it; no other path changes |
| Models.NewCompany | server/models/Company.js:3-57 | every path is trimmed, the contact e-mail also lower-cased; the shared lists start empty |
| Models.OptionalCompanyPaths | server/models/Company.js:4-39 | a company needs only name, contact e-mail and contact person; the five optional paths never affect storability |
| Text.TrimIsCore | server/models/User.js:5-16 | the `trim` setter yields a contiguous slice with only white space cut on either side, and the slice starts and ends with a non-space |
| Text.TrimEmptyIffBlank | server/models/User.js:5-16 | trimming yields "" exactly for an all-white-space string |
| Text.TrimIdempotent | server/models/User.js:5-16 | trimming a trimmed string changes nothing |
| Text.Lower | server/models/User.js:14 | lower-casing keeps the length and maps each character |
| Text.LowerTrim | server/models/User.js:10-16 | lower-casing and trimming commute |
| Text.NormalizeEmailIdempotent | server/models/User.js:10-16 | a stored e-mail is its own normal form, so the setters give it back unchanged |
| Text.Join | client/src/utils/helpers.js:146 | joining no parts gives "", joining one part gives that part |
| Text.IntToString | client/src/utils/helpers.js:90 | a number's text is non-empty and starts with '-' exactly for a negative number |
| Queries.FindOne | server/routes/admin.js:118-120 | `findOne` returns the first matching document in insertion order, and nothing exactly when no document matches |
| Queries.FindOneExcept | server/routes/admin.js:242 | a lookup excluding one id finds nothing exactly when no other document matches |
| Queries.IdsFrom | server/routes/admin.js:371-372 | `find` lists exactly the matching ids, each once, in ascending order |
| Queries.MembersAreStudents | server/models/Batch.js:52 | when administrators have no batch, the users referencing a batch are exactly its students |
| Queries.MembersAfterMove | server/routes/admin.js:259 | moving one user changes a batch's members by that user only |
| Queries.MembersAfterInsert | server/routes/admin.js:147 | a new user joins the members of its own batch only |
| Queries.MembersAfterRemove | server/routes/admin.js:289 | a deleted user leaves the members of its own batch only |
| Membership.Completed | server/routes/admin.js:77-80 | completion sets the flag and the date on that batch alone; its count and every other batch are unchanged |
| Membership.CascadeEffect | server/routes/admin.js:83-86 | after the cascade every student of the batch is alumni; users outside it are unchanged, and no user changes anything but the flag |
| Membership.CascadeIdempotent | server/routes/admin.js:83-86 | running the cascade twice is running it once |
| Membership.Recounted | server/models/Batch.js:50-55 | the recount sets that batch's count to its number of members; nothing else changes |
| Membership.RecountIdempotent | server/models/Batch.js:50-55 | two recounts with no membership change give the same batches as one |
| Membership.RecountRepairs | server/models/Batch.js:50-55 | if only one batch's count is stale, recounting it makes every count accurate |
| Membership.InsertStalesOnlyOwnBatch | server/routes/admin.js:147-150 | saving a new user can only stale the count of the batch it references |
| Membership.RemoveStalesOnlyOwnBatch | server/routes/admin.js:289-297 | deleting a user can only stale the count of its former batch |
| Membership.WriteKeepsCounts | server/routes/students.js:75 | a save that keeps the batch reference keeps every count accurate |
| Membership.CompletionKeepsAlumniConsistent | server/routes/admin.js:77-86 | completion followed by the cascade keeps every completed batch's students alumni |
| Membership.CompletionKeepsCounts | server/routes/admin.js:77-86 | completion and the cascade leave every count accurate |
| Membership.RecompletionOnlyMovesDate | server/routes/admin.js:72-86 | completing a batch again re-sets only the completion date; the cascade adds nothing |
| Membership.InsertKeepsAlumniConsistent | server/routes/admin.js:133-147 | a new user that is alumni whenever its batch is completed keeps the alumni invariant |
| Membership.RecountKeepsAlumniConsistent | server/models/Batch.js:50-55 | a recount never breaks the alumni invariant |
| Membership.WriteKeepsAlumniConsistent | server/routes/students.js:52-75 | a save keeping role, batch and flag keeps the alumni invariant |
| AdminRules.NewStudentDoc | server/routes/admin.js:133-145 | the added student has role student, the request's batch and id, and is alumni exactly when the batch is completed |
| AdminRules.DuplicateMessage | server/routes/admin.js:121-124 | the message says "Email already exists" exactly when the stored e-mail equals the request's, otherwise "Student ID already exists" |
| AdminRules.DuplicateMessageForUnnormalisedEmail | server/routes/admin.js:123 | an e-mail clash on a request e-mail not in normal form is reported as a student-id clash |
| AdminRules.EditIdentity | server/routes/admin.js:256-258 | name, e-mail, student id and phone are overwritten only by truthy values (through the setters); nothing else changes |
| AdminRules.EditPlacement | server/routes/admin.js:259-262 | batch, course, department and year are overwritten only by truthy values; nothing else changes |
| AdminRules.AdminEdited | server/routes/admin.js:255-263 | the edit writes only the eight listed paths, each only when the value sent is truthy |
| AdminRules.ReassignLeavesCountStale | server/routes/admin.js:259-265 | as written, moving a student out of an existing batch leaves a stale count |
| AdminRules.ReassignCanBreakAlumniConsistency | server/routes/admin.js:259-265 | as written, moving a non-alumni student into a completed batch breaks the alumni invariant |
| AdminRules.RecountRef | server/routes/admin.js:292-297 | a reference to an existing batch is recounted; a missing or dangling one changes nothing |
| AdminRules.InsertRecountKeepsCounts | server/routes/admin.js:147-150 | saving a user and recounting its batch keeps every count accurate |
| AdminRules.InsertRecountKeepsAlumniConsistent | server/routes/admin.js:133-150 | the save and recount keep the alumni invariant when the new user is alumni for a completed batch |
| AdminRules.RemoveRecountKeepsCounts | server/routes/admin.js:289-297 | deleting a user and recounting its former batch keeps every count accurate |
| AdminRules.RemoveRecountKeepsAlumniConsistent | server/routes/admin.js:289-297 | deletion and recount keep the alumni invariant |
| AdminRules.SyncedEdit | server/routes/admin.js:255-265 | the corrected edit writes the same paths and makes the student alumni exactly when they already were or their new batch is completed |
| AdminRules.SyncedEditKeepsCounts | server/routes/admin.js:255-265 | the corrected edit with both recounts keeps every count accurate |
| AdminRules.SyncedEditKeepsAlumniConsistent | server/routes/admin.js:255-265 | the corrected edit keeps the alumni invariant |
| AdminRules.Snapshot | server/routes/admin.js:371-380 | the entry lists exactly the batch's students in id order, dated now, with the default message "Student list for <name>" when none is given |
| AdminRules.SnapshotListsStudentsOnce | server/routes/admin.js:371-372 | the snapshot's ids are the batch's students, each exactly once |
| Auth.RegisteredDoc | server/routes/auth.js:42-57 | an admin gets only the common paths; a student also gets id, batch, course, department and year; nobody is alumni |
| Auth.AdminRegistrationUnbatched | server/routes/auth.js:42-57 | a registered admin has no batch and no student id |
| Auth.Login | server/routes/auth.js:99-128 | invalid input is rejected first; a login succeeds only for the user holding the normalised e-mail whose hash matches, with that user's token; every other failure is "Invalid credentials" |
| Auth.LoginIff | server/routes/auth.js:112-121 | with unique e-mails, a login with a known e-mail succeeds exactly when the password matches that user's hash, and logs in that user |
| Auth.LoginFailuresUniform | server/routes/auth.js:112-121 | an unknown e-mail and a wrong password give the same reply |
| Profile.ContactEdited | server/routes/students.js:54-58 | only phone, the three links and skills are written, each only when the value sent is truthy |
| Profile.JobEdited | server/routes/students.js:62-65 | job role, company, location and salary are written only when truthy (a salary sent as the text "0" is truthy and written); nothing else changes |
| Profile.CareerEdited | server/routes/students.js:66-72 | experience, achievements and status are written only when given; nothing else changes |
| Profile.UpdatedProfile | server/routes/students.js:36-75 | a non-alumni update touches only the five contact paths; an alumni update adds the work paths; identity, role, batch and flag never change; an unknown status is refused |
| Profile.EmptyRequestKeepsProfile | server/routes/students.js:54-72 | a request with no truthy value leaves the profile as it was |
| Profile.NonAlumniKeepsWorkFields | server/routes/students.js:52-58 | a non-alumni update keeps all seven work paths whatever the request holds |
| Profile.UpdateIdempotent | server/routes/students.js:51-73 | sending the same update twice gives the profile of sending it once |
| Uploads.AfterLastCore | server/routes/upload.js:25 | `split('/').pop()` is the suffix after the last separator and holds none |
| Uploads.BeforeFirstCore | server/routes/upload.js:25 | `split('.')[0]` is the prefix before the first dot and holds none |
| Uploads.PublicId | server/routes/upload.js:25 | the public id holds neither '/' nor '.' and is no longer than the URL |
| Uploads.PublicIdOfUrl | server/routes/upload.js:25 | for a URL `<folder>/<id>.<extension>` the public id is `<id>` |
| Server.BatchDoc | server/routes/admin.js:35-43 | the saved batch is not completed, has no completion date and no students, carries the request paths (name and description trimmed), and is storable exactly when the trimmed name is not empty |
| Server.CompanyDoc | server/routes/admin.js:321 | the saved company has no share events, its contact e-mail normalised and every other path trimmed, and is storable exactly when the three required paths are non-empty after their setters |
| Server.InsertKeepsUsersValid | server/models/User.js:10-31 | a new user with an unused e-mail and student id keeps both unique indexes and every reference below the counter |
| Server.OverwriteKeepsUsersValid | server/models/User.js:10-31 | a rewrite whose e-mail and student id no other user holds keeps both indexes unique |
| Server.EditRejection | server/routes/admin.js:235-253 | the edit is refused with 404 for a missing or non-student user, and otherwise exactly when a changed e-mail or student id is held by another user |
| Server.EditedEmailClashesWithNobody | server/routes/admin.js:241-246 | an admitted edit's e-mail is held by no other user |
| Server.EditedStudentIdClashesWithNobody | server/routes/admin.js:248-253 | an admitted edit's student id is held by no other user |
| Server.EditKeepsUsersValid | server/routes/admin.js:255-265 | an admitted, storable edit keeps the unique indexes |
| Server.RegisterRejection | server/routes/auth.js:13-39 | invalid input first, then an existing e-mail; a registration is admitted exactly when the input is valid, the e-mail is new and a student's id is not taken |
| Server.SyncedRegisteredDoc | server/routes/auth.js:42-60 | the corrected registration document equals the original but for the flag, which is set exactly for a student of a completed batch |
| Server.RegisterIntoCompletedBreaksAlumniConsistency | server/routes/auth.js:59-68 | as written, registering a student into a completed batch breaks the alumni invariant |
| Server.AssignContact | server/routes/students.js:54-58 | the step-by-step assignments give the contact edit |
| Server.AssignWork | server/routes/students.js:61-72 | the step-by-step assignments give the work edit |
| Server.Store.UpdateStudentCount | server/models/Batch.js:50-55 | the batch's count becomes its member count; users and companies are unchanged |
| Server.Store.CreateBatch | server/routes/admin.js:13-46 | invalid input, then a taken name, are refused with nothing saved; otherwise the new batch is stored under a fresh id and both invariants hold |
| Server.Store.CompleteBatch | server/routes/admin.js:70-88 | an unknown id gives 404 with nothing changed; otherwise the batch is completed and all its students become alumni, the rest unchanged; both invariants are kept |
| Server.Store.AddStudent | server/routes/admin.js:99-150 | validation, then a duplicate, then an unknown batch are refused with nothing saved; otherwise the student is stored, alumni exactly when the batch is completed, and the batch is recounted; both invariants are kept |
| Server.Store.UpdateStudent | server/routes/admin.js:231-265 | the guards as written; an admitted edit writes only the truthy paths, never the alumni flag nor any count, and only raises the id counter past the new batch reference |
| Server.Store.UpdateStudentSynced | server/routes/admin.js:231-265 | the corrected edit: the same guards and writes, the batch left and the batch joined recounted, and both invariants kept |
| Server.Store.SaveMoved | server/routes/admin.js:255-265 | the document is written and both the former and the new batch are recounted |
| Server.Store.DeleteStudent | server/routes/admin.js:282-297 | a missing or non-student user gives 404 with nothing changed; otherwise the user is removed, the former batch's count equals its new membership, and both invariants are kept |
| Server.Store.CreateCompany | server/routes/admin.js:310-323 | an invalid request is refused; otherwise the new company is stored under a fresh id |
| Server.Store.ShareStudents | server/routes/admin.js:347-387 | a missing batch id, company or batch is refused with nothing changed; otherwise exactly one snapshot is appended, earlier entries stay, and the reply counts the batch's students |
| Server.Store.Register | server/routes/auth.js:13-75 | the guards as written; an admitted registration stores the hashed document, recounts an existing batch and signs the token; counts stay accurate, alumni consistency only when the batch is not completed |
| Server.Store.RegisterSynced | server/routes/auth.js:13-75 | the corrected registration keeps both invariants for every request |
| Server.Store.InsertUser | server/routes/admin.js:147-150 | the user is stored under a fresh id and its batch recounted; counts stay accurate |
| Server.Store.UpdateProfile | server/routes/students.js:29-75 | a missing user gives 404; an unknown alumni status gives 500; otherwise the user becomes the gated update, nothing else changes |
| Server.Store.UploadProfilePicture | server/routes/upload.js:11-35 | no file gives 400, an unknown user 404; otherwise the field is the new path and the old asset is destroyed exactly when there was one |
| Server.Store.UploadResume | server/routes/upload.js:46-73 | as the picture upload, with 403 for a non-student before any change |
| Server.Store.DeleteProfilePicture | server/routes/upload.js:84-103 | an unknown user gives 404, an empty field 400; otherwise the asset is destroyed and the field cleared |
| Server.Store.DeleteResume | server/routes/upload.js:114-137 | 404, then 403 for a non-student, then 400 for an empty field; otherwise the asset is destroyed and the field cleared |
| Sorting.SortByPermutes | client/src/utils/helpers.js:98-110 | sorting keeps every element, as often as it occurs |
| Sorting.SortBySorted | client/src/utils/helpers.js:98-110 | under a total preorder, the result is ordered |
| Sorting.SortBySortedFixed | client/src/utils/helpers.js:98 | an already ordered list is returned as it is |
| Sorting.SortByIdempotent | client/src/utils/helpers.js:98 | sorting a sorted list again changes nothing |
| Sorting.TakeIsTop | server/routes/students.js:212-213 | after an ordered sort, everything kept by a limit precedes, in the order, everything cut |
| Stats.AlumniDetail | server/routes/students.js:136-146 | the document is returned exactly for an existing alumnus, with password and e-mail removed and nothing else changed; otherwise 404 "Alumni not found" |
| Stats.AlumniCompanies | server/routes/students.js:172-176 | the distinct companies of alumni never include the empty name |
| Stats.CompaniesAll | server/routes/students.js:209-211 | the aggregation's stream names exactly the alumni companies |
| Stats.TopCompanies | server/routes/students.js:209-214 | the aggregation keeps at most five entries |
| Stats.TopCompaniesCounted | server/routes/students.js:209-214 | each entry is an alumni company with its exact headcount, at least one |
| Stats.TopCompaniesOrdered | server/routes/students.js:212 | the entries are in non-increasing headcount order |
| Stats.TopCompaniesDistinct | server/routes/students.js:211 | no company appears twice |
| Stats.TopCompaniesSize | server/routes/students.js:213 | there are five entries, or as many as there are alumni companies when those are fewer |
| Stats.GroupOfCompany | server/routes/students.js:210-211 | every alumni company has a group with its headcount |
| Stats.TopCompaniesAreTop | server/routes/students.js:212-213 | a company left out has no more alumni than any listed one |
| Stats.StudentStatsOf | server/routes/students.js:187-227 | the reply fails with 500 exactly when the caller or their batch does not resolve; otherwise it reports the caller's flag and the top companies (the three counts are stated by the lemmas below) |
| Stats.BatchAlumniCountsCaller | server/routes/students.js:197-201 | the batch's alumni count is the other alumni of the batch plus one exactly when the caller is an alumnus student |
| Stats.StatsTotalAlumniMatchesDashboard | server/routes/students.js:203-206 | the student's alumni total equals the one the admin dashboard reports |
| Stats.BatchMatesExcludeCaller | server/routes/students.js:191-195 | the batch mates of a student are the batch's students less the caller |
| Stats.BatchAlumniBounded | server/routes/students.js:197-206 | the batch's alumni are no more than the batch's students and no more than all alumni |
| Stats.CompletedBatchAllAlumni | server/routes/students.js:197-201 | under the alumni invariant, every student of a completed batch counts as its alumnus |
| Stats.DashboardCurrentStudents | server/routes/admin.js:400-402 | the current students are exactly the students who are not alumni |
| Stats.DashboardActiveBatches | server/routes/admin.js:403-405 | the active batches are exactly the batches not completed |
| Stats.Dashboard | server/routes/admin.js:400-405 | the current students and the active batches are never negative and never exceed the totals they are taken from |
| Listing.Split | client/src/utils/helpers.js:114 | splitting yields at least one piece |
| Listing.SplitPiecesFree | client/src/utils/helpers.js:114 | no piece contains the separator |
| Listing.SplitJoin | client/src/utils/helpers.js:114 | joining the pieces with the separator gives the path back |
| Listing.WalkAppend | client/src/utils/helpers.js:114 | walking a key list in two parts is walking it whole |
| Listing.WalkUndefined | client/src/utils/helpers.js:114 | once a step is undefined, the rest of the walk stays undefined |
| Listing.GetNestedValue | client/src/utils/helpers.js:113-115 | a lookup on undefined stays undefined, whatever the path |
| Listing.NestedPath | client/src/utils/helpers.js:113-115 | the value at `p.q` is the value at `q` inside the value at `p` |
| Listing.PlainPath | client/src/utils/helpers.js:113-115 | a path without a dot is a single property read |
| Listing.FilterKeeps | client/src/utils/helpers.js:87-92 | every item kept satisfies the predicate |
| Listing.FilterData | client/src/utils/helpers.js:83-93 | with a search term, every item returned has a field whose lower-cased text contains the lower-cased term |
| Listing.FilterDataKeeps | client/src/utils/helpers.js:83-93 | with a term, an item is kept, as often as it occurs, exactly when one field's lower-cased text contains the lower-cased term; an empty term returns the input |
| Listing.FilterDataAppend | client/src/utils/helpers.js:87-92 | the search keeps the input's order |
| Listing.FilterDataIdempotent | client/src/utils/helpers.js:83-93 | searching the result again changes nothing |
| Listing.ByKeyTotalPreorder | client/src/utils/helpers.js:98-110 | the comparator is total and transitive in both orders |
| Listing.SortData | client/src/utils/helpers.js:95-111 | with a sort key, the copy is ordered by the key comparator for the chosen direction |
| Listing.SortDataPermutes | client/src/utils/helpers.js:95-98 | the sorted copy holds the same records; without a key the input comes back as it is |
| Listing.SortDataOrdered | client/src/utils/helpers.js:98-110 | records with a missing key come last; present keys ascend, or descend under "desc" |
| Listing.SortDataIdempotent | client/src/utils/helpers.js:95-110 | sorting the sorted copy again changes nothing |
| Listing.DescReversesPresentKeys | client/src/utils/helpers.js:105-109 | descending order on present keys is ascending order reversed |
| Helpers.ValidatePassword | client/src/utils/helpers.js:28-30 | the presence test adds nothing: a password passes exactly when it has six characters or more |
| Helpers.ValidatePasswordIff | client/src/utils/helpers.js:28-30 | a password is accepted exactly when it has at least six characters, the server's rule |
| Helpers.ValidateStudentId | client/src/utils/helpers.js:32-34 | the presence test adds nothing: an id passes exactly when its trimmed text is non-empty |
| Helpers.ValidateStudentIdIff | client/src/utils/helpers.js:32-34 | an id is accepted exactly when it holds a non-space character |
| Helpers.ValidateEmail | client/src/utils/helpers.js:23-26 | an accepted address has at least five characters |
| Helpers.ValidEmailShape | client/src/utils/helpers.js:23-26 | an accepted address has no white space and exactly one '@', not at either end |
| Helpers.ValidateEmailAccepts | client/src/utils/helpers.js:23-26 | a plain address is accepted |
| Helpers.ValidateEmailNeedsDot | client/src/utils/helpers.js:23-26 | an address with no dot after any of its '@'s is refused |
| Helpers.ValidateImageFile | client/src/utils/helpers.js:37-50 | accepted exactly for an image type of at most 5 MiB; a wrong type reports the type error even when oversized |
| Helpers.ValidateResumeFile | client/src/utils/helpers.js:52-69 | accepted exactly for a document type of at most 10 MiB; the type is checked first |
| Helpers.FileLimitsExact | client/src/utils/helpers.js:37-69 | a file of exactly the limit passes and one byte more fails |
| Helpers.FormatCompanyName | client/src/utils/helpers.js:77-80 | "Not specified" for an empty name; otherwise the same length, first character upper-cased, the rest kept |
| Helpers.FormatCompanyNameIdempotent | client/src/utils/helpers.js:77-80 | formatting a formatted name changes nothing |
| Helpers.GetStatusColor | client/src/utils/helpers.js:118-127 | an unknown status gets the grey #757575 |
| Helpers.GetStatusLabel | client/src/utils/helpers.js:129-138 | an unknown status is shown as it is |
| Helpers.StatusDisplayDistinct | client/src/utils/helpers.js:118-138 | the five statuses get five different labels and colours, none of them the grey |
| Helpers.HandleApiError | client/src/utils/helpers.js:141-149 | the server's message first, then the validator messages joined by ", ", then the error's message, then "Something went wrong" |
| Helpers.HandleApiErrorNonEmpty | client/src/utils/helpers.js:141-149 | without a validator list, some message is always shown |
| Helpers.HandleApiErrorEmptyList | client/src/utils/helpers.js:145-146 | an empty validator list shows an empty message |
| RouteGuard.Guard | client/src/components/common/ProtectedRoute.js:9-26 | loading shows the spinner whatever else; signed out goes to the login; the dashboard and admin redirects happen exactly under their flags, the admin check first |
| RouteGuard.RenderIff | client/src/components/common/ProtectedRoute.js:17-26 | the page renders exactly when settled, signed in, and every flag set is met by the role |
| RouteGuard.UnflaggedOpen | client/src/components/common/ProtectedRoute.js:6-26 | a page with neither flag is open to every signed-in user |
| RouteGuard.BothFlagsNeverRender | client/src/components/common/ProtectedRoute.js:18-24 | a page with both flags never renders |
| ProfilePage.AddSkill | client/src/pages/student/StudentProfile.js:169-177 | the trimmed entry is appended and the box cleared exactly when it is non-empty and not listed; otherwise nothing changes |
| ProfilePage.AddSkillKeepsDistinct | client/src/pages/student/StudentProfile.js:170-174 | adding keeps the list free of duplicates and earlier skills in place; an added skill is non-empty and trimmed |
| ProfilePage.RemoveSkill | client/src/pages/student/StudentProfile.js:179-184 | no remaining skill equals the removed one |
| ProfilePage.RemoveSkillRemoves | client/src/pages/student/StudentProfile.js:179-184 | every occurrence of the skill goes and every other skill keeps its count |
| ProfilePage.RemoveUndoesAdd | client/src/pages/student/StudentProfile.js:169-184 | removing a skill just added gives the list back |
| ProfilePage.AchievementRequest | client/src/pages/student/StudentProfile.js:186-197 | a request is sent exactly when title and description are given, listing the existing achievements with the new one last |
| ProfilePage.AchievementAppended | client/src/pages/student/StudentProfile.js:190-197 | for an alumnus, the request appends exactly the new entry and changes nothing else |
| ProfilePage.FetchProfile | client/src/pages/student/StudentProfile.js:91-103 | each of the eight text paths is copied when present and "" when missing, skills are copied or [], salary copied when non-zero and otherwise the empty box, and the status copied or "studying" when missing or empty |
| ProfilePage.SaveRequest | client/src/pages/student/StudentProfile.js:111-114 | saving the form never sends achievements and always sends the skill list |
| ProfilePage.UneditedSaveChangesNothing | client/src/pages/student/StudentProfile.js:87-125 | loading the form and saving it unedited leaves the stored profile as it was |

## Findings

| source | as written | input that shows it | evidently intended | confidence | as-written member | corrected member |
|---|---|---|---|---|---|---|
| server/routes/admin.js:259-265 | `PUT /admin/students/:id` writes a new batch reference and saves, without recounting either batch and without touching `isAlumni` | a non-alumni student of batch A, both batches existing, moved to a completed batch B with `{batch: B}` | both batches recounted, and a student moved into a completed batch made alumni, as adding one does (admin.js:144, 150) | high (not executed) | Server.Store.UpdateStudent, AdminRules.ReassignLeavesCountStale, AdminRules.ReassignCanBreakAlumniConsistency | Server.Store.UpdateStudentSynced |
| server/routes/auth.js:59-68 | `POST /auth/register` saves a student into any batch with `isAlumni` at its default `false` | a student registration whose `batch` is a completed batch | the alumni flag copied from the batch's completion, as `POST /admin/students` does (admin.js:144) | medium (not executed) | Server.Store.Register, Server.RegisterIntoCompletedBreaksAlumniConsistency | Server.Store.RegisterSynced |

## Left out

- Mongo query semantics of the listing routes: regex filters, `$or`, `.sort`, `.populate`, `.limit`, `GET /admin/students`, `GET /students/alumni`, `GET /students/batches`, `GET /admin/batches` and `GET /admin/companies`. Their counts and aggregations appear as set comprehensions only.
- The connection and networking routes (server/routes/students.js:233-440). They are stubs returning fixed data.
- `GET /students/profile` and `GET /auth/me`. They read one document; only the client's mapping of that document is modelled.
- server/middleware/auth.js is not part of this model. `auth`, `studentAuth` and `adminAuth` are taken to have admitted the caller, whose id is a parameter.
- File storage: the storage service and the upload middleware are left out. A removed asset is reported as the `destroyed` output.
- Password hashing and comparison, token signing and express-validator's `isEmail` are uninterpreted function parameters. The other validators are written out as the routes use them.
- Dates are integers supplied by the caller. No date parsing or formatting is modelled. `formatDate`, `formatDateTime` and `formatSalary` (locale formatting) and the localStorage helpers are left out.
- Concurrency and atomicity. Each request is one sequential step. Completion's two writes (the batch save, then `updateMany`) are one step.
- Failures of the database itself and id cast errors are left out. A schema check that fails on save is modelled as the 500 reply with nothing saved.
- The unique indexes on e-mail, student id and batch name are not modelled as separate database guards. The store's invariant proves that the explicit lookups keep e-mails and non-empty student ids unique; the one case where only the index guards is the empty student id below.
- Text: case mapping covers ASCII letters only; there is no Unicode case folding. White space is ECMAScript's WhiteSpace and LineTerminator set, as `trim()` and `\s` use it. Strings are sequences of Unicode scalar values, not of UTF-16 code units: lengths count a character outside the basic plane once, and string order is code-point order.
- Absent and falsy request values are merged. An absent string path is "", an absent number 0, an absent array None. A registration's empty `studentId` is stored as no student id.
- Server.Store.Register: a student registration with an empty `studentId` skips the id lookup and stores `""`, which the sparse unique index also covers; a second such registration therefore fails on save and the source answers 500 with nothing saved. The model stores no student id, so it stores the second registration and answers 201.
- Numeric paths (`year`, `salary`) are integers. A fractional value the source accepts (a salary typed as "1500.5", a year "2024.5" passing `isNumeric`) is not representable, and neither is a non-numeric value sent to a Number path where no validator runs (a registration's `year`), which fails the cast on save and is answered 500 in the source.
- Ids are natural numbers from one counter shared by all collections. A batch reference in a request is kept below the counter; this stands in for object ids being fresh.
- Server.Store.UpdateStudent: an edit may point the student at a batch id that does not exist. The model accepts it as the route does (no lookup), and keeps only the counter bound.
- Server.Store.CreateCompany: the route saves the whole request body. The model stores only the eight schema paths: shared lists cannot be supplied in the request.
- Stats.AlumniDetail: `populate` of the batch is not modelled; the batch id is returned. Deselected password and e-mail are modelled as "".
- Stats.StudentStatsOf: `populate` is not modelled; the batch reference is resolved against the batches map.
- Stats.TopCompanies: ties in headcount keep the order of first appearance in id order, where the database leaves it unspecified.
- Listing: JSON numbers are integers. Only objects have properties: array and string indices and `length` are not modelled. `Listing.Get` sees only an object's own properties; names inherited from `Object.prototype` (`constructor`, `toString`, `valueOf`, `__proto__`, ...) are undefined in the model, where JavaScript returns a function or an object whose text `filterData` would search.
- Helpers.GetStatusColor, Helpers.GetStatusLabel: the lookup tables are object literals, so a status named like an inherited `Object.prototype` member (`constructor`, `toString`, `valueOf`, `__proto__`, ...) yields that member in JavaScript; the model treats every name outside the five statuses as unknown, giving the grey fallback and the status itself.
- Helpers.ValidatePasswordIff: the client's `length` counts UTF-16 code units and the server's `isLength` counts code points, so a password with characters outside the basic plane can pass one and fail the other ("ab😀de" is 6 units but 5 code points). The model counts scalar values on both sides, where the two checks agree.
- Listing.SortDataOrdered: values of different kinds are ordered by a kind rank (boolean, number, string, then arrays and objects), where JavaScript's `>` and `<` convert between kinds. Arrays and objects tie among themselves. Two records that both lack the key compare as a tie, where the source's comparator answers 1 both ways. Stability of the sort is not stated.
- ProfilePage.AchievementRequest: the `new Date(...)` conversion of the entry's date is not modelled; the date is kept as given.
- React state, rendering and the page components (everything under client/src/pages except the profile page's handlers, and the navigation). client/src/services/index.js is an HTTP wrapper and is not modelled.
- server/scripts/seed.js and server/config/cloudinary.js: fixture data and service configuration.
