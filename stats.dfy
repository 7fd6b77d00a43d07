/** The read routes that select, count and aggregate users: the alumni
    detail read, the list of alumni companies, the student dashboard
    statistics with their top-companies aggregation, and the admin
    dashboard counts. Counts are the sizes of the sets of documents a
    `countDocuments` filter selects. */
module Stats {
  import opened Models
  import opened Queries
  import opened Sorting
  import opened Http

  predicate IsAlumnus(u: User) {
    u.role == Student && u.isAlumni
  }

  /** The filter of the top-companies `$match` stage and of the company
      list: alumni students with a non-empty company. */
  predicate Listed(u: User) {
    IsAlumnus(u) && u.company != ""
  }

  function Students(users: map<Id, User>): set<Id> {
    set k | k in users && users[k].role == Student
  }

  function Alumni(users: map<Id, User>): set<Id> {
    set k | k in users && IsAlumnus(users[k])
  }

  /** Cardinality of a set less one of its subsets. */
  lemma DifferenceCard<T>(a: set<T>, b: set<T>)
    requires b <= a
    ensures |a - b| == |a| - |b|
  {
    assert a == (a - b) + b;
  }

  lemma SubsetCard<T>(a: set<T>, b: set<T>)
    requires b <= a
    ensures |b| <= |a|
  {
    DifferenceCard(a, b);
  }

  // ------------------------------------------------ GET /students/alumni/:id

  /** A user as the alumni reads send it, with password and e-mail deselected. */
  function Public(u: User): User {
    u.(password := "", email := "")
  }

  /** `GET /students/alumni/:id`: the document, without its password and
      e-mail, only when the user exists and is an alumnus; otherwise 404. */
  function AlumniDetail(users: map<Id, User>, id: Id): (r: Response<User>)
    ensures r.Json? <==> id in users && users[id].isAlumni
    ensures r.Fail? ==> r.reply == Error(404, "Alumni not found")
    ensures r.Json? ==> r.body.password == "" && r.body.email == ""
    ensures r.Json? ==> r.body.(password := users[id].password, email := users[id].email) == users[id]
  {
    if id in users && users[id].isAlumni then Json(Public(users[id]))
    else Fail(Error(404, "Alumni not found"))
  }

  // ------------------------------------------------ GET /students/companies

  /** `distinct('company', ...)`: the companies named by alumni. */
  function AlumniCompanies(users: map<Id, User>): (r: set<string>)
    ensures "" !in r
  {
    set k | k in users && Listed(users[k]) :: users[k].company
  }

  // ------------------------------------------------ top companies

  datatype CompanyCount = CompanyCount(company: string, count: nat)

  /** The companies of the matched documents with ids from `i` below `n`,
      in id order (the stream the `$group` stage reads). */
  function CompaniesFrom(users: map<Id, User>, i: nat, n: nat): seq<string>
    decreases n - i
  {
    if i >= n then []
    else
      var rest := CompaniesFrom(users, i + 1, n);
      if i in users && Listed(users[i]) then [users[i].company] + rest else rest
  }

  lemma {:induction false} CompaniesFromListed(users: map<Id, User>, i: nat, n: nat, c: string)
    ensures c in CompaniesFrom(users, i, n) <==>
            exists k :: i <= k < n && k in users && Listed(users[k]) && users[k].company == c
    decreases n - i
  {
    if i < n {
      CompaniesFromListed(users, i + 1, n, c);
    }
  }

  /** Over a whole collection the stream names exactly the alumni companies. */
  lemma CompaniesAll(users: map<Id, User>, n: nat, c: string)
    requires forall k :: k in users ==> k < n
    ensures c in CompaniesFrom(users, 0, n) <==> c in AlumniCompanies(users)
  {
    CompaniesFromListed(users, 0, n, c);
    if c in AlumniCompanies(users) {
      var k :| k in users && Listed(users[k]) && users[k].company == c;
      assert 0 <= k < n;
    }
  }

  predicate NoDup(s: seq<string>) {
    forall i, j :: 0 <= i < j < |s| ==> s[i] != s[j]
  }

  /** Each value once, in order of first occurrence. */
  function Dedup(s: seq<string>): seq<string>
    decreases |s|
  {
    if s == [] then []
    else if s[|s| - 1] in s[..|s| - 1] then Dedup(s[..|s| - 1])
    else Dedup(s[..|s| - 1]) + [s[|s| - 1]]
  }

  lemma {:induction false} DedupCore(s: seq<string>)
    ensures forall c :: c in Dedup(s) <==> c in s
    ensures NoDup(Dedup(s))
    decreases |s|
  {
    if s != [] {
      var init := s[..|s| - 1];
      DedupCore(init);
      assert s == init + [s[|s| - 1]];
    }
  }

  /** A list without repetitions is as long as the set of its values. */
  lemma {:induction false} NoDupCard(s: seq<string>)
    requires NoDup(s)
    ensures |set c | c in s| == |s|
    decreases |s|
  {
    if s != [] {
      var init := s[..|s| - 1];
      assert NoDup(init);
      NoDupCard(init);
      assert (set c | c in s) == (set c | c in init) + {s[|s| - 1]};
      assert s[|s| - 1] !in init;
    }
  }

  /** The `$sum: 1` of a group: how many matched documents name `c`. */
  function Headcount(users: map<Id, User>, c: string): nat {
    |Employees(users, c)|
  }

  /** The matched documents naming company `c`. */
  function Employees(users: map<Id, User>, c: string): set<Id> {
    set k | k in users && Listed(users[k]) && users[k].company == c
  }

  /** The `$group` stage: one entry per company, with its headcount. */
  function Groups(users: map<Id, User>, n: nat): seq<CompanyCount> {
    var names := Dedup(CompaniesFrom(users, 0, n));
    seq(|names|, i requires 0 <= i < |names| => CompanyCount(names[i], Headcount(users, names[i])))
  }

  /** The `$sort: {count: -1}` order. */
  predicate MoreOrSame(a: CompanyCount, b: CompanyCount) {
    a.count >= b.count
  }

  lemma MoreOrSameTotal()
    ensures TotalPreorder(MoreOrSame)
  {
  }

  const TopLimit: nat := 5

  /** The aggregation: group, sort by headcount descending, keep five. Among
      equal headcounts the order is that of first appearance. */
  function TopCompanies(users: map<Id, User>, n: nat): (r: seq<CompanyCount>)
    ensures |r| <= TopLimit
  {
    var sorted := SortBy(Groups(users, n), MoreOrSame);
    if |sorted| <= TopLimit then sorted else sorted[..TopLimit]
  }

  /** An entry of the sorted groups is a group: one alumni company with
      its headcount. */
  lemma SortedGroupIsGroup(users: map<Id, User>, n: nat, e: CompanyCount)
    requires forall k :: k in users ==> k < n
    requires e in SortBy(Groups(users, n), MoreOrSame)
    ensures e.company in AlumniCompanies(users) && e.count == Headcount(users, e.company)
  {
    var groups := Groups(users, n);
    SortByPermutes(groups, MoreOrSame);
    assert e in multiset(groups);
    var names := Dedup(CompaniesFrom(users, 0, n));
    var i :| 0 <= i < |groups| && groups[i] == e;
    DedupCore(CompaniesFrom(users, 0, n));
    assert names[i] in names;
    CompaniesAll(users, n, e.company);
  }

  /** Every listed entry is an alumni company with its exact headcount,
      which is at least one. */
  lemma TopCompaniesCounted(users: map<Id, User>, n: nat, e: CompanyCount)
    requires forall k :: k in users ==> k < n
    requires e in TopCompanies(users, n)
    ensures e.company in AlumniCompanies(users)
    ensures e.count == Headcount(users, e.company) && e.count >= 1
  {
    var sorted := SortBy(Groups(users, n), MoreOrSame);
    assert e in sorted;
    SortedGroupIsGroup(users, n, e);
    var k :| k in users && Listed(users[k]) && users[k].company == e.company;
    assert k in Employees(users, e.company);
  }

  /** Entries come by headcount, largest first. */
  lemma TopCompaniesOrdered(users: map<Id, User>, n: nat)
    ensures forall i, j :: 0 <= i < j < |TopCompanies(users, n)| ==>
              TopCompanies(users, n)[i].count >= TopCompanies(users, n)[j].count
  {
    MoreOrSameTotal();
    SortBySorted(Groups(users, n), MoreOrSame);
  }

  lemma {:induction false} NoDupOnce<T>(s: seq<T>, x: T)
    requires forall i, j :: 0 <= i < j < |s| ==> s[i] != s[j]
    ensures multiset(s)[x] <= 1
    decreases |s|
  {
    if s != [] {
      NoDupOnce(s[1..], x);
      assert s == [s[0]] + s[1..];
      if s[0] == x {
        assert x !in s[1..];
      }
    }
  }

  lemma TwiceTwo<T>(s: seq<T>, i: nat, j: nat)
    requires i < j < |s| && s[i] == s[j]
    ensures multiset(s)[s[i]] >= 2
  {
    assert s == s[..i] + [s[i]] + s[i + 1..j] + [s[j]] + s[j + 1..];
  }

  /** No company is listed twice. */
  lemma TopCompaniesDistinct(users: map<Id, User>, n: nat, i: nat, j: nat)
    requires forall k :: k in users ==> k < n
    requires i < j < |TopCompanies(users, n)|
    ensures TopCompanies(users, n)[i].company != TopCompanies(users, n)[j].company
  {
    var groups := Groups(users, n);
    var sorted := SortBy(groups, MoreOrSame);
    var top := TopCompanies(users, n);
    assert top[i] == sorted[i] && top[j] == sorted[j];
    if sorted[i].company == sorted[j].company {
      SortedGroupIsGroup(users, n, sorted[i]);
      SortedGroupIsGroup(users, n, sorted[j]);
      assert sorted[i] == sorted[j];
      TwiceTwo(sorted, i, j);
      SortByPermutes(groups, MoreOrSame);
      var names := Dedup(CompaniesFrom(users, 0, n));
      DedupCore(CompaniesFrom(users, 0, n));
      assert forall a, b :: 0 <= a < b < |groups| ==> groups[a] != groups[b] by {
        forall a, b | 0 <= a < b < |groups| ensures groups[a] != groups[b] {
          assert groups[a].company == names[a] && groups[b].company == names[b];
        }
      }
      NoDupOnce(groups, sorted[i]);
      assert false;
    }
  }

  /** There are five entries, or as many as there are alumni companies
      when those are fewer. */
  lemma TopCompaniesSize(users: map<Id, User>, n: nat)
    requires forall k :: k in users ==> k < n
    ensures var m := |AlumniCompanies(users)|;
            |TopCompanies(users, n)| == if m <= TopLimit then m else TopLimit
  {
    var stream := CompaniesFrom(users, 0, n);
    var names := Dedup(stream);
    DedupCore(stream);
    NoDupCard(names);
    forall c ensures c in names <==> c in AlumniCompanies(users) {
      CompaniesAll(users, n, c);
    }
    assert (set c | c in names) == AlumniCompanies(users);
    SortByPermutes(Groups(users, n), MoreOrSame);
  }

  /** Every alumni company has its group among the sorted groups. */
  lemma GroupOfCompany(users: map<Id, User>, n: nat, c: string)
    requires forall k :: k in users ==> k < n
    requires c in AlumniCompanies(users)
    ensures CompanyCount(c, Headcount(users, c)) in SortBy(Groups(users, n), MoreOrSame)
  {
    var groups := Groups(users, n);
    var names := Dedup(CompaniesFrom(users, 0, n));
    CompaniesAll(users, n, c);
    DedupCore(CompaniesFrom(users, 0, n));
    var i :| 0 <= i < |names| && names[i] == c;
    assert groups[i] == CompanyCount(c, Headcount(users, c));
    SortByPermutes(groups, MoreOrSame);
    assert groups[i] in multiset(SortBy(groups, MoreOrSame));
  }

  /** A company left out of the list has no more alumni than any company
      listed. */
  lemma TopCompaniesAreTop(users: map<Id, User>, n: nat, c: string, e: CompanyCount)
    requires forall k :: k in users ==> k < n
    requires c in AlumniCompanies(users)
    requires forall f :: f in TopCompanies(users, n) ==> f.company != c
    requires e in TopCompanies(users, n)
    ensures e.count >= Headcount(users, c)
  {
    var sorted := SortBy(Groups(users, n), MoreOrSame);
    var g := CompanyCount(c, Headcount(users, c));
    GroupOfCompany(users, n, c);
    var j :| 0 <= j < |sorted| && sorted[j] == g;
    assert j >= TopLimit;
    assert sorted[TopLimit..][j - TopLimit] == g;
    MoreOrSameTotal();
    SortBySorted(Groups(users, n), MoreOrSame);
    TakeIsTop(sorted, MoreOrSame, TopLimit, e, g);
  }

  // ------------------------------------------------ GET /students/stats

  datatype StudentStats = StudentStats(
    isAlumni: bool, batchMates: nat, batchAlumni: nat, totalAlumni: nat,
    topCompanies: seq<CompanyCount>)

  /** `GET /students/stats` for the caller `caller`. A missing caller, or a
      batch reference that does not resolve, makes the `student.batch._id`
      dereference throw: the reply is then the 500 of the catch block. */
  function StudentStatsOf(batches: map<Id, Batch>, users: map<Id, User>, n: nat, caller: Id)
    : (r: Response<StudentStats>)
    ensures r.Fail? <==> caller !in users || users[caller].batch.None? || users[caller].batch.value !in batches
    ensures r.Fail? ==> r.reply == ServerError
    ensures r.Json? ==> r.body.isAlumni == users[caller].isAlumni && r.body.topCompanies == TopCompanies(users, n)
  {
    if caller !in users || users[caller].batch.None? || users[caller].batch.value !in batches then
      Fail(ServerError)
    else
      var b := users[caller].batch.value;
      Json(StudentStats(
        users[caller].isAlumni,
        |StudentsOf(users, b) - {caller}|,
        |AlumniOf(users, b)|,
        |Alumni(users)|,
        TopCompanies(users, n)))
  }

  /** The alumni among the students of batch `b`. */
  function AlumniOf(users: map<Id, User>, b: Id): set<Id> {
    set k | k in StudentsOf(users, b) && users[k].isAlumni
  }

  /** A student's batch mates are the other students of the batch. */
  lemma BatchMatesExcludeCaller(batches: map<Id, Batch>, users: map<Id, User>, n: nat, caller: Id)
    requires StudentStatsOf(batches, users, n, caller).Json? && users[caller].role == Student
    ensures StudentStatsOf(batches, users, n, caller).body.batchMates + 1
            == |StudentsOf(users, users[caller].batch.value)|
  {
    var b := users[caller].batch.value;
    DifferenceCard(StudentsOf(users, b), {caller});
  }

  /** The batch's alumni are among the batch's students and among all
      alumni. */
  lemma BatchAlumniBounded(batches: map<Id, Batch>, users: map<Id, User>, n: nat, caller: Id)
    requires StudentStatsOf(batches, users, n, caller).Json?
    ensures var s := StudentStatsOf(batches, users, n, caller).body;
            s.batchAlumni <= s.totalAlumni && s.batchAlumni <= |StudentsOf(users, users[caller].batch.value)|
  {
    var b := users[caller].batch.value;
    var ba := AlumniOf(users, b);
    SubsetCard(Alumni(users), ba);
    SubsetCard(StudentsOf(users, b), ba);
  }

  /** The batch's alumni count is the other alumni of the batch, plus one
      for the caller exactly when the caller is an alumnus student. */
  lemma BatchAlumniCountsCaller(batches: map<Id, Batch>, users: map<Id, User>, n: nat, caller: Id)
    requires StudentStatsOf(batches, users, n, caller).Json?
    ensures var b := users[caller].batch.value;
            StudentStatsOf(batches, users, n, caller).body.batchAlumni
            == |AlumniOf(users, b) - {caller}| + (if IsAlumnus(users[caller]) then 1 else 0)
  {
    var b := users[caller].batch.value;
    if IsAlumnus(users[caller]) {
      assert caller in AlumniOf(users, b);
      DifferenceCard(AlumniOf(users, b), {caller});
    } else {
      assert AlumniOf(users, b) - {caller} == AlumniOf(users, b);
    }
  }

  /** The student's alumni total is the one the admin dashboard shows. */
  lemma StatsTotalAlumniMatchesDashboard(batches: map<Id, Batch>, users: map<Id, User>,
                                         companies: map<Id, Company>, n: nat, caller: Id)
    requires StudentStatsOf(batches, users, n, caller).Json?
    ensures StudentStatsOf(batches, users, n, caller).body.totalAlumni
            == Dashboard(batches, users, companies).totalAlumni
  {
  }

  /** In a completed batch whose students are all alumni, as the store
      keeps them, every student of the batch counts as its alumnus. */
  lemma CompletedBatchAllAlumni(batches: map<Id, Batch>, users: map<Id, User>, n: nat, caller: Id)
    requires AlumniConsistent(batches, users)
    requires StudentStatsOf(batches, users, n, caller).Json?
    requires batches[users[caller].batch.value].isCompleted
    ensures StudentStatsOf(batches, users, n, caller).body.batchAlumni
            == |StudentsOf(users, users[caller].batch.value)|
  {
    var b := users[caller].batch.value;
    var ba := AlumniOf(users, b);
    forall k | k in StudentsOf(users, b) ensures k in ba {
      assert IsStudentOf(users[k], b);
    }
    assert ba == StudentsOf(users, b);
  }

  // ------------------------------------------------ GET /admin/dashboard/stats

  datatype DashboardStats = DashboardStats(
    totalStudents: int, currentStudents: int, totalAlumni: int,
    totalBatches: int, activeBatches: int, completedBatches: int, totalCompanies: int)

  function CompletedBatches(batches: map<Id, Batch>): set<Id> {
    set b | b in batches && batches[b].isCompleted
  }

  /** The admin dashboard: four counts, and two differences of them. */
  function Dashboard(batches: map<Id, Batch>, users: map<Id, User>, companies: map<Id, Company>)
    : (r: DashboardStats)
    ensures 0 <= r.currentStudents <= r.totalStudents
    ensures 0 <= r.activeBatches <= r.totalBatches
  {
    SubsetCard(Students(users), Alumni(users));
    SubsetCard(batches.Keys, CompletedBatches(batches));
    var students := |Students(users)|;
    var alumni := |Alumni(users)|;
    var total := |batches.Keys|;
    var completed := |CompletedBatches(batches)|;
    DashboardStats(students, students - alumni, alumni, total, total - completed, completed,
                   |companies.Keys|)
  }

  /** The current students are exactly the students who are not alumni. */
  lemma DashboardCurrentStudents(batches: map<Id, Batch>, users: map<Id, User>, companies: map<Id, Company>)
    ensures Dashboard(batches, users, companies).currentStudents
            == |set k | k in users && users[k].role == Student && !users[k].isAlumni|
  {
    assert (set k | k in users && users[k].role == Student && !users[k].isAlumni) == Students(users) - Alumni(users);
    DifferenceCard(Students(users), Alumni(users));
  }

  /** The active batches are exactly the batches not completed. */
  lemma DashboardActiveBatches(batches: map<Id, Batch>, users: map<Id, User>, companies: map<Id, Company>)
    ensures Dashboard(batches, users, companies).activeBatches
            == |set b | b in batches && !batches[b].isCompleted|
  {
    assert (set b | b in batches && !batches[b].isCompleted) == batches.Keys - CompletedBatches(batches);
    DifferenceCard(batches.Keys, CompletedBatches(batches));
  }
}
