/** The team performance report: for every approved member of a team, how
    many subtasks are assigned to the member, how many of those are
    completed, under way and not started (by progress), and the
    completion rate, sorted so that the best rate comes first. */
module Performance {
  import opened Common
  import opened Schema

  /** A row of the report. */
  datatype MemberPerformance = MemberPerformance(
    id: UserId,
    name: string,
    email: string,
    totalTasks: nat,
    completedTasks: nat,
    inProgressTasks: nat,
    pendingTasks: nat,
    completionRate: nat)

  predicate IsApprovedMemberOf(u: User, teamCode: TeamCode) {
    u.teamCode == teamCode && u.role == Member && u.status == Approved
  }

  /** The members the report covers. */
  function ApprovedMembers(users: seq<User>, teamCode: TeamCode): seq<User> {
    Filter(users, (u: User) => IsApprovedMemberOf(u, teamCode))
  }

  /** The subtasks assigned to one member. */
  function AssignedTo(subtasks: seq<Subtask>, id: UserId): seq<Subtask> {
    Filter(subtasks, (s: Subtask) => s.assignedTo == Some(id))
  }

  // The three buckets of the aggregate query, by progress.
  predicate IsDone(s: Subtask) { s.progress == Progress.Completed }
  predicate IsUnderWay(s: Subtask) { s.progress == InProgress || s.progress == Testing }
  predicate IsNotStarted(s: Subtask) { s.progress == NotStarted || s.progress == Progress.Assigned }

  /** Every progress value falls in exactly one bucket, so the three counts
      add up to the total. */
  lemma {:induction false} BucketsPartition(s: seq<Subtask>)
    ensures |Filter(s, IsDone)| + |Filter(s, IsUnderWay)| + |Filter(s, IsNotStarted)| == |s|
  {
    if s != [] {
      BucketsPartition(s[..|s| - 1]);
    }
  }

  /** `completion_rate`: the rounded percentage of completed subtasks, or 0
      for a member with none. */
  function CompletionRate(completed: nat, total: nat): (r: nat)
    ensures total == 0 ==> r == 0
    ensures total > 0 ==> 2 * total * r <= 200 * completed + total < 2 * total * (r + 1)
    ensures completed <= total ==> r <= 100
    ensures total > 0 && completed == total ==> r == 100
    ensures completed == 0 ==> r == 0
  {
    if total > 0 then RoundedPercent(completed, total) else 0
  }

  /** Rounding half up: 199 of 200 subtasks done already reads as 100%. */
  lemma AlmostAllReadsAsComplete()
    ensures CompletionRate(199, 200) == 100
    ensures CompletionRate(3, 4) == 75
    ensures CompletionRate(1, 3) == 33 && CompletionRate(2, 3) == 67
  {
  }

  /** One member's row. */
  function MemberStats(u: User, subtasks: seq<Subtask>): (p: MemberPerformance)
    ensures p.id == u.id && p.name == u.name && p.email == u.email
    ensures p.totalTasks == |AssignedTo(subtasks, u.id)|
    ensures p.completedTasks == |Filter(AssignedTo(subtasks, u.id), IsDone)|
    ensures p.inProgressTasks == |Filter(AssignedTo(subtasks, u.id), IsUnderWay)|
    ensures p.pendingTasks == |Filter(AssignedTo(subtasks, u.id), IsNotStarted)|
    ensures p.totalTasks == p.completedTasks + p.inProgressTasks + p.pendingTasks
    ensures p.completionRate == CompletionRate(p.completedTasks, p.totalTasks)
    ensures p.completionRate <= 100
    ensures p.totalTasks == 0 ==> p.completedTasks == 0 && p.completionRate == 0
  {
    var mine := AssignedTo(subtasks, u.id);
    BucketsPartition(mine);
    var done := |Filter(mine, IsDone)|;
    MemberPerformance(u.id, u.name, u.email, |mine|, done,
      |Filter(mine, IsUnderWay)|, |Filter(mine, IsNotStarted)|, CompletionRate(done, |mine|))
  }

  /** The rows before sorting, one per approved member in table order. */
  function TeamStats(users: seq<User>, subtasks: seq<Subtask>, teamCode: TeamCode): (rows: seq<MemberPerformance>)
    ensures var members := ApprovedMembers(users, teamCode);
      |rows| == |members| && forall i :: 0 <= i < |rows| ==> rows[i] == MemberStats(members[i], subtasks)
  {
    var members := ApprovedMembers(users, teamCode);
    seq(|members|, i requires 0 <= i < |members| => MemberStats(members[i], subtasks))
  }

  /** The comparator of the sort, as an order: a better rate first; on equal
      rates, more completed subtasks first. */
  predicate Ranked(a: MemberPerformance, b: MemberPerformance) {
    a.completionRate > b.completionRate
    || (a.completionRate == b.completionRate && a.completedTasks >= b.completedTasks)
  }

  predicate SortedByRank(s: seq<MemberPerformance>) {
    forall i, j :: 0 <= i < j < |s| ==> Ranked(s[i], s[j])
  }

  /** Exchanges two neighbouring rows. */
  method Swap(a: array<MemberPerformance>, j: nat)
    requires 0 < j < a.Length
    modifies a
    ensures a[..] == old(a[..])[j - 1 := old(a[j])][j := old(a[j - 1])]
    ensures multiset(a[..]) == multiset(old(a[..]))
  {
    a[j - 1], a[j] := a[j], a[j - 1];
  }

  /** Moves the row at `i` down past every row it outranks; the rows
      before it were sorted, and afterwards the rows up to it are. */
  method InsertDown(a: array<MemberPerformance>, i: nat)
    requires i < a.Length
    requires SortedByRank(a[..i])
    modifies a
    ensures SortedByRank(a[..i + 1])
    ensures multiset(a[..]) == multiset(old(a[..]))
  {
    var j := i;
    while 0 < j && !Ranked(a[j - 1], a[j])
      invariant 0 <= j <= i
      invariant multiset(a[..]) == multiset(old(a[..]))
      invariant forall p, q :: 0 <= p < q <= i && p != j && q != j ==> Ranked(a[p], a[q])
      invariant forall q :: j < q <= i ==> Ranked(a[j], a[q])
    {
      Swap(a, j);
      j := j - 1;
    }
  }

  /** The in-place sort (`Array.prototype.sort` with the comparator), by
      insertion: each new row is swapped down past the rows it outranks. */
  method SortByRank(a: array<MemberPerformance>)
    modifies a
    ensures SortedByRank(a[..])
    ensures multiset(a[..]) == multiset(old(a[..]))
  {
    var i := 0;
    while i < a.Length
      invariant 0 <= i <= a.Length
      invariant SortedByRank(a[..i])
      invariant multiset(a[..]) == multiset(old(a[..]))
    {
      InsertDown(a, i);
      i := i + 1;
    }
    assert a[..] == a[..a.Length];
  }

  /** `GET /team/:teamCode`: the rows of the team's approved members,
      sorted by rank. */
  method TeamPerformance(db: Database, teamCode: TeamCode) returns (report: seq<MemberPerformance>)
    ensures SortedByRank(report)
    ensures multiset(report) == multiset(TeamStats(db.users, db.subtasks, teamCode))
    ensures |report| == |ApprovedMembers(db.users, teamCode)|
  {
    var members := ApprovedMembers(db.users, teamCode);
    if members == [] {
      return [];
    }
    var stats := TeamStats(db.users, db.subtasks, teamCode);
    var a := new MemberPerformance[|stats|](i requires 0 <= i < |stats| => stats[i]);
    assert a[..] == stats;
    SortByRank(a);
    report := a[..];
    assert |report| == |multiset(report)| == |multiset(stats)| == |stats|;
  }

  /** Every row of the report is the row of an approved member of the team,
      and every approved member has a row. */
  lemma ReportCoversMembers(users: seq<User>, subtasks: seq<Subtask>, teamCode: TeamCode,
                            report: seq<MemberPerformance>)
    requires multiset(report) == multiset(TeamStats(users, subtasks, teamCode))
    ensures forall k :: 0 <= k < |report| ==>
      exists u :: u in users && IsApprovedMemberOf(u, teamCode) && report[k] == MemberStats(u, subtasks)
    ensures forall u :: u in ApprovedMembers(users, teamCode) ==> MemberStats(u, subtasks) in report
  {
    var members := ApprovedMembers(users, teamCode);
    var stats := TeamStats(users, subtasks, teamCode);
    FilterMembers(users, (u: User) => IsApprovedMemberOf(u, teamCode));
    forall k | 0 <= k < |report|
      ensures exists u :: u in users && IsApprovedMemberOf(u, teamCode) && report[k] == MemberStats(u, subtasks)
    {
      assert report[k] in multiset(stats);
      var i :| 0 <= i < |stats| && stats[i] == report[k];
      assert members[i] in users && IsApprovedMemberOf(members[i], teamCode);
    }
    forall u | u in members
      ensures MemberStats(u, subtasks) in report
    {
      var i :| 0 <= i < |members| && members[i] == u;
      assert stats[i] in multiset(report);
    }
  }
}
