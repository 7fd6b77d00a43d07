/** The batch lifecycle over the stored collections: the completion step
    with its alumni cascade, the member recount of `updateStudentCount`,
    and how the two store-wide invariants (completed batch implies alumni
    members, exact cached counts) fare under each kind of change. */
module Membership {
  import opened Wrappers
  import opened Models
  import opened Queries

  /** The completion step on the batch document: the flag and the date are
      set, nothing else is touched. It does not look at the previous flag. */
  function Completed(batches: map<Id, Batch>, b: Id, now: int): (r: map<Id, Batch>)
    requires b in batches
    ensures r.Keys == batches.Keys
    ensures r[b].isCompleted && r[b].completedDate == Some(now)
    ensures r[b].(isCompleted := batches[b].isCompleted, completedDate := batches[b].completedDate) == batches[b]
    ensures forall c :: c in batches && c != b ==> r[c] == batches[c]
  {
    batches[b := batches[b].(isCompleted := true, completedDate := Some(now))]
  }

  /** `updateMany({ batch: b, role: 'student' }, { $set: { isAlumni: true } })`
      (see `CascadeEffect`). */
  function Cascade(users: map<Id, User>, b: Id): (r: map<Id, User>)
    ensures r.Keys == users.Keys
  {
    map k | k in users :: if IsStudentOf(users[k], b) then users[k].(isAlumni := true) else users[k]
  }

  /** After the cascade every student of `b` is alumni, every other user is
      as it was, and only the alumni flag ever changes. */
  lemma CascadeEffect(users: map<Id, User>, b: Id)
    ensures forall k :: k in users && IsStudentOf(users[k], b) ==> Cascade(users, b)[k].isAlumni
    ensures forall k :: k in users && !IsStudentOf(users[k], b) ==> Cascade(users, b)[k] == users[k]
    ensures forall k :: k in users ==> Cascade(users, b)[k].(isAlumni := users[k].isAlumni) == users[k]
  {
  }

  /** Running the cascade again changes nothing. */
  lemma CascadeIdempotent(users: map<Id, User>, b: Id)
    ensures Cascade(Cascade(users, b), b) == Cascade(users, b)
  {
    var once := Cascade(users, b);
    var twice := Cascade(once, b);
    CascadeEffect(users, b);
    CascadeEffect(once, b);
    forall k | k in users ensures twice[k] == once[k] {
      if IsStudentOf(users[k], b) {
        assert once[k].isAlumni && IsStudentOf(once[k], b);
        assert twice[k].(isAlumni := once[k].isAlumni) == once[k];
      }
    }
  }

  /** `updateStudentCount`: the cached count of `b` becomes the number of
      users referencing `b` (no role filter); no other batch and no other
      path changes. */
  function Recounted(batches: map<Id, Batch>, users: map<Id, User>, b: Id): (r: map<Id, Batch>)
    requires b in batches
    ensures r.Keys == batches.Keys
    ensures r[b].totalStudents == |Members(users, b)|
    ensures r[b].(totalStudents := batches[b].totalStudents) == batches[b]
    ensures forall c :: c in batches && c != b ==> r[c] == batches[c]
  {
    batches[b := batches[b].(totalStudents := |Members(users, b)|)]
  }

  /** Two recounts with no membership change in between give the same state. */
  lemma RecountIdempotent(batches: map<Id, Batch>, users: map<Id, User>, b: Id)
    requires b in batches
    ensures Recounted(Recounted(batches, users, b), users, b) == Recounted(batches, users, b)
  {
  }

  /** Every counter except possibly that of `b` is exact. */
  ghost predicate CountsAccurateExcept(batches: map<Id, Batch>, users: map<Id, User>, b: Id) {
    forall c :: c in batches && c != b ==> batches[c].totalStudents == |Members(users, c)|
  }

  /** A recount of the one batch whose counter may be stale makes all exact. */
  lemma RecountRepairs(batches: map<Id, Batch>, users: map<Id, User>, b: Id)
    requires b in batches && CountsAccurateExcept(batches, users, b)
    ensures CountsAccurate(Recounted(batches, users, b), users)
  {
  }

  /** Inserting a user leaves exact every counter except its own batch's. */
  lemma InsertStalesOnlyOwnBatch(batches: map<Id, Batch>, users: map<Id, User>, k: Id, u: User)
    requires CountsAccurate(batches, users) && k !in users
    ensures forall c :: c in batches && u.batch != Some(c) ==>
      batches[c].totalStudents == |Members(users[k := u], c)|
    ensures u.batch.Some? ==> CountsAccurateExcept(batches, users[k := u], u.batch.value)
  {
    forall c | c in batches && u.batch != Some(c)
      ensures batches[c].totalStudents == |Members(users[k := u], c)|
    {
      MembersAfterInsert(users, k, u, c);
    }
  }

  /** Removing a user leaves exact every counter except its own batch's. */
  lemma RemoveStalesOnlyOwnBatch(batches: map<Id, Batch>, users: map<Id, User>, k: Id)
    requires CountsAccurate(batches, users) && k in users
    ensures forall c :: c in batches && users[k].batch != Some(c) ==>
      batches[c].totalStudents == |Members(users - {k}, c)|
    ensures users[k].batch.Some? ==> CountsAccurateExcept(batches, users - {k}, users[k].batch.value)
  {
    forall c | c in batches && users[k].batch != Some(c)
      ensures batches[c].totalStudents == |Members(users - {k}, c)|
    {
      MembersAfterRemove(users, k, c);
    }
  }

  /** Overwriting a user without moving it between batches keeps the counters exact. */
  lemma WriteKeepsCounts(batches: map<Id, Batch>, users: map<Id, User>, k: Id, u: User)
    requires CountsAccurate(batches, users) && k in users && users[k].batch == u.batch
    ensures CountsAccurate(batches, users[k := u])
  {
    forall c | c in batches ensures batches[c].totalStudents == |Members(users[k := u], c)| {
      MembersAfterWrite(users, k, u, c);
    }
  }

  /** The completion step and its cascade together establish the alumni
      invariant for the completed batch and keep it for every other. */
  lemma CompletionKeepsAlumniConsistent(batches: map<Id, Batch>, users: map<Id, User>, b: Id, now: int)
    requires b in batches && AlumniConsistent(batches, users)
    ensures AlumniConsistent(Completed(batches, b, now), Cascade(users, b))
  {
    var bs, us := Completed(batches, b, now), Cascade(users, b);
    CascadeEffect(users, b);
    forall c, k | c in bs && bs[c].isCompleted && k in us && IsStudentOf(us[k], c)
      ensures us[k].isAlumni
    {
      assert us[k].(isAlumni := users[k].isAlumni) == users[k];
      assert IsStudentOf(users[k], c);
      if c != b {
        assert batches[c].isCompleted;
      }
    }
  }

  /** Completion leaves every cached count exact: membership does not change. */
  lemma CompletionKeepsCounts(batches: map<Id, Batch>, users: map<Id, User>, b: Id, now: int)
    requires b in batches && CountsAccurate(batches, users)
    ensures CountsAccurate(Completed(batches, b, now), Cascade(users, b))
  {
    var bs, us := Completed(batches, b, now), Cascade(users, b);
    CascadeEffect(users, b);
    forall c | c in bs ensures bs[c].totalStudents == |Members(us, c)| {
      assert Members(us, c) == Members(users, c) by {
        forall k | k in users ensures us[k].batch == users[k].batch {
          assert us[k].(isAlumni := users[k].isAlumni) == users[k];
        }
      }
    }
  }

  /** Completing an already completed batch gives the same users and the
      same batch except for the completion date. */
  lemma RecompletionOnlyMovesDate(batches: map<Id, Batch>, users: map<Id, User>, b: Id, t1: int, t2: int)
    requires b in batches
    ensures Cascade(Cascade(users, b), b) == Cascade(users, b)
    ensures Completed(Completed(batches, b, t1), b, t2) == Completed(batches, b, t2)
  {
    CascadeIdempotent(users, b);
  }

  /** A newly stored user keeps the alumni invariant when, if it is a student
      of a completed batch, it is stored as alumni. */
  lemma InsertKeepsAlumniConsistent(batches: map<Id, Batch>, users: map<Id, User>, k: Id, u: User)
    requires AlumniConsistent(batches, users) && k !in users
    requires forall b :: b in batches && batches[b].isCompleted && IsStudentOf(u, b) ==> u.isAlumni
    ensures AlumniConsistent(batches, users[k := u])
  {
  }

  /** Changing only cached counters never affects the alumni invariant. */
  lemma RecountKeepsAlumniConsistent(batches: map<Id, Batch>, users: map<Id, User>, others: map<Id, User>, b: Id)
    requires b in batches && AlumniConsistent(batches, users)
    ensures AlumniConsistent(Recounted(batches, others, b), users)
  {
    var r := Recounted(batches, others, b);
    forall c, k | c in r && r[c].isCompleted && k in users && IsStudentOf(users[k], c)
      ensures users[k].isAlumni
    {
      if c == b {
        assert r[b].(totalStudents := batches[b].totalStudents) == batches[b];
      }
    }
  }

  /** Overwriting a user without touching its role, batch or alumni flag
      keeps the alumni invariant. */
  lemma WriteKeepsAlumniConsistent(batches: map<Id, Batch>, users: map<Id, User>, k: Id, u: User)
    requires AlumniConsistent(batches, users) && k in users
    requires u.role == users[k].role && u.batch == users[k].batch && u.isAlumni == users[k].isAlumni
    ensures AlumniConsistent(batches, users[k := u])
  {
  }
}
