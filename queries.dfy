/** The database reads the route handlers use, over a collection held as a
    map from id to document: `findOne` and `find` in natural (id) order,
    and the membership sets that `countDocuments` counts. */
module Queries {
  import opened Wrappers
  import opened Models

  /** `findOne(filter)`: the first document, in id order from `i` up to the
      bound `n`, that satisfies the filter `p`. */
  function FindFrom<V>(m: map<Id, V>, p: V -> bool, i: nat, n: nat): (r: Option<Id>)
    ensures r.Some? ==> i <= r.value < n && r.value in m && p(m[r.value])
    ensures r.Some? ==> forall k :: i <= k < r.value && k in m ==> !p(m[k])
    ensures r.None? ==> forall k :: i <= k < n && k in m ==> !p(m[k])
    decreases n - i
  {
    if i >= n then None
    else if i in m && p(m[i]) then Some(i)
    else FindFrom(m, p, i + 1, n)
  }

  /** `findOne(filter)` over a whole collection whose ids are all below `n`. */
  function FindOne<V>(m: map<Id, V>, p: V -> bool, n: nat): (r: Option<Id>)
    requires forall k :: k in m ==> k < n
    ensures r.Some? ==> r.value in m && p(m[r.value])
    ensures r.Some? ==> forall k :: k < r.value && k in m ==> !p(m[k])
    ensures r.None? <==> forall k :: k in m ==> !p(m[k])
  {
    FindFrom(m, p, 0, n)
  }

  /** `findOne({..., _id: {$ne: id}})`: the lookup that skips one document
      finds nothing exactly when no other document satisfies the filter. */
  lemma FindOneExcept<V>(m: map<Id, V>, p: V -> bool, id: Id, n: nat)
    requires forall k :: k in m ==> k < n
    ensures FindOne(m - {id}, p, n).None? <==> !exists k :: k in m && k != id && p(m[k])
  {
    var rest := m - {id};
    if exists k :: k in m && k != id && p(m[k]) {
      var k :| k in m && k != id && p(m[k]);
      assert k in rest && rest[k] == m[k];
    }
  }

  predicate Increasing(s: seq<Id>) {
    forall i, j :: 0 <= i < j < |s| ==> s[i] < s[j]
  }

  /** `find(filter)` mapped to ids: the ids from `i` below `n` of the
      documents satisfying `p`, in ascending order. */
  function IdsFrom<V>(m: map<Id, V>, p: V -> bool, i: nat, n: nat): (r: seq<Id>)
    ensures forall k :: k in r <==> i <= k < n && k in m && p(m[k])
    ensures Increasing(r)
    ensures forall j :: 0 <= j < |r| ==> i <= r[j]
    decreases n - i
  {
    if i >= n then []
    else
      var rest := IdsFrom(m, p, i + 1, n);
      if i in m && p(m[i]) then [i] + rest else rest
  }

  /** A list of ids in ascending order holds each id once, so its length is
      the size of the set of ids it lists. */
  lemma {:induction false} IncreasingCard(s: seq<Id>, ids: set<Id>)
    requires Increasing(s)
    requires forall k :: k in s <==> k in ids
    ensures |s| == |ids|
  {
    if s == [] {
      assert ids == {};
    } else {
      assert s[0] !in s[1..];
      assert forall k :: k in s[1..] <==> k in ids - {s[0]};
      IncreasingCard(s[1..], ids - {s[0]});
    }
  }

  /** The users `updateStudentCount` counts for batch `b`: every user whose
      batch reference is `b`, whatever the role. */
  function Members(users: map<Id, User>, b: Id): set<Id> {
    set k | k in users && users[k].batch == Some(b)
  }

  /** The student users of batch `b`, the set the completion cascade and the
      share snapshot select. */
  function StudentsOf(users: map<Id, User>, b: Id): set<Id> {
    set k | k in users && users[k].role == Student && users[k].batch == Some(b)
  }

  predicate IsStudentOf(u: User, b: Id) {
    u.role == Student && u.batch == Some(b)
  }

  // ------------------------------------------------ store-wide invariants

  /** No admin references a batch: true of everything the handlers store. */
  ghost predicate AdminsUnbatched(users: map<Id, User>) {
    forall k {:trigger users[k].role} :: k in users && users[k].role == Admin ==> users[k].batch == None
  }

  ghost predicate UniqueEmails(users: map<Id, User>) {
    forall a, b {:trigger users[a].email, users[b].email} :: a in users && b in users && a != b ==> users[a].email != users[b].email
  }

  ghost predicate UniqueStudentIds(users: map<Id, User>) {
    forall a, b {:trigger users[a].studentId, users[b].studentId} :: a in users && b in users && a != b && users[a].studentId.Some? ==>
      users[a].studentId != users[b].studentId
  }

  ghost predicate UniqueBatchNames(batches: map<Id, Batch>) {
    forall a, b {:trigger batches[a].batchName, batches[b].batchName} :: a in batches && b in batches && a != b ==> batches[a].batchName != batches[b].batchName
  }

  ghost predicate AllStorable(users: map<Id, User>) {
    forall k {:trigger Storable(users[k])} :: k in users ==> Storable(users[k])
  }

  /** Batch/user consistency: every student of a completed batch is alumni. */
  ghost predicate AlumniConsistent(batches: map<Id, Batch>, users: map<Id, User>) {
    forall b, k :: b in batches && batches[b].isCompleted && k in users && IsStudentOf(users[k], b) ==>
      users[k].isAlumni
  }

  /** The cached counters are exact. */
  ghost predicate CountsAccurate(batches: map<Id, Batch>, users: map<Id, User>) {
    forall b :: b in batches ==> batches[b].totalStudents == |Members(users, b)|
  }

  /** Without admins in batches, the role-blind count that
      `updateStudentCount` takes is the number of students of the batch. */
  lemma MembersAreStudents(users: map<Id, User>, b: Id)
    requires AdminsUnbatched(users)
    ensures Members(users, b) == StudentsOf(users, b)
  {
    forall k | k in Members(users, b) ensures k in StudentsOf(users, b) {
      assert users[k].role != Admin;
    }
  }

  /** Replacing one user whose batch reference stays the same leaves every
      membership set as it was. */
  lemma MembersAfterWrite(users: map<Id, User>, k: Id, u: User, b: Id)
    requires k in users && users[k].batch == u.batch
    ensures Members(users[k := u], b) == Members(users, b)
  {
  }

  /** Overwriting user `k` moves it out of the membership of its old batch
      and into that of its new batch; every other member stays. */
  lemma MembersAfterMove(users: map<Id, User>, k: Id, u: User, b: Id)
    requires k in users
    ensures Members(users[k := u], b) == (Members(users, b) - {k}) + (if u.batch == Some(b) then {k} else {})
  {
  }

  /** Adding a user with batch reference `ref` changes only the membership of
      that batch, which gains exactly the new id. */
  lemma MembersAfterInsert(users: map<Id, User>, k: Id, u: User, b: Id)
    requires k !in users
    ensures Members(users[k := u], b) == if u.batch == Some(b) then Members(users, b) + {k} else Members(users, b)
  {
  }

  /** Removing a user changes only the membership of its own batch, which
      loses exactly that id. */
  lemma MembersAfterRemove(users: map<Id, User>, k: Id, b: Id)
    requires k in users
    ensures Members(users - {k}, b) == if users[k].batch == Some(b) then Members(users, b) - {k} else Members(users, b)
  {
  }
}
