/** The dashboard (components/Dashboard.tsx): the headline counts, the
    pipeline value, the deals-by-stage chart and the upcoming-task list. */
module Dashboard {
  import Seqs
  import opened Crm
  import Tally

  predicate IsActive(l: Lead)
  {
    l.status != ClosedLost && l.status != ClosedWon
  }

  function StatusTest(status: LeadStatus): Lead -> bool
  {
    (l: Lead) => l.status == status
  }

  /** `activeDealsCount`. */
  function ActiveDealsCount(leads: seq<Lead>): nat
  {
    |Seqs.Filter(leads, (l: Lead) => IsActive(l))|
  }

  /** The active deals are the leads that are neither won nor lost: with the
      closed ones they make up every lead. */
  lemma {:induction false} ActiveDealsPartition(leads: seq<Lead>)
    ensures ActiveDealsCount(leads) + |Seqs.Filter(leads, StatusTest(ClosedWon))| +
      |Seqs.Filter(leads, StatusTest(ClosedLost))| == |leads|
  {
    if |leads| > 0 {
      ActiveDealsPartition(leads[1..]);
    }
  }

  function PendingTest(): Task -> bool
  {
    (t: Task) => t.status != Completed
  }

  /** `dueTasksCount`: the tasks not completed. */
  function DueTasksCount(tasks: seq<Task>): nat
  {
    |Seqs.Filter(tasks, PendingTest())|
  }

  function CompletedTest(): Task -> bool
  {
    (t: Task) => t.status == Completed
  }

  /** Pending and completed tasks make up every task. */
  lemma {:induction false} DueTasksPartition(tasks: seq<Task>)
    ensures DueTasksCount(tasks) + |Seqs.Filter(tasks, CompletedTest())| == |tasks|
    ensures DueTasksCount(tasks) == |tasks| <==> forall i :: 0 <= i < |tasks| ==> tasks[i].status != Completed
  {
    if |tasks| > 0 {
      DueTasksPartition(tasks[1..]);
    }
    Seqs.FilterKeepsAll(tasks, PendingTest());
  }

  function Statuses(leads: seq<Lead>): (s: seq<LeadStatus>)
    ensures |s| == |leads| && forall i :: 0 <= i < |leads| ==> s[i] == leads[i].status
  {
    seq(|leads|, i requires 0 <= i < |leads| => leads[i].status)
  }

  /** `dealsByStage` with `Object.entries`: one entry per status present, in
      order of first appearance, each counting the leads of that status (so at
      least 1); the counts add up to the number of leads. */
  method DealsByStage(leads: seq<Lead>) returns (entries: seq<(LeadStatus, nat)>)
    ensures forall s :: s in Tally.KeysOf(entries) <==> exists i :: 0 <= i < |leads| && leads[i].status == s
    ensures forall i, j :: 0 <= i < j < |entries| ==> entries[i].0 != entries[j].0
    ensures forall j :: 0 <= j < |entries| ==>
      entries[j].1 == |Seqs.Filter(leads, StatusTest(entries[j].0))| && entries[j].1 >= 1
    ensures Tally.SumCounts(entries) == |leads|
  {
    entries := Tally.Tally(Statuses(leads));
    Tally.DistinctKeys(Statuses(leads));
    forall j | 0 <= j < |entries|
      ensures entries[j].1 == |Seqs.Filter(leads, StatusTest(entries[j].0))|
    {
      CountIsFilterLength(leads, entries[j].0);
    }
    forall i, j | 0 <= i < j < |entries|
      ensures entries[i].0 != entries[j].0
    {
      assert Tally.KeysOf(entries)[i] == entries[i].0 && Tally.KeysOf(entries)[j] == entries[j].0;
    }
  }

  /** The occurrences of a status among the statuses are the leads of it. */
  lemma {:induction false} CountIsFilterLength(leads: seq<Lead>, s: LeadStatus)
    ensures multiset(Statuses(leads))[s] == |Seqs.Filter(leads, StatusTest(s))|
  {
    if |leads| > 0 {
      CountIsFilterLength(leads[1..], s);
      assert Statuses(leads) == [leads[0].status] + Statuses(leads[1..]);
    }
  }

  /** `tasks.slice(0, 6)`: at most the first six tasks, in order. */
  function UpcomingTasks(tasks: seq<Task>): (shown: seq<Task>)
    ensures |shown| <= 6 && (|tasks| >= 6 ==> |shown| == 6) && (|tasks| < 6 ==> shown == tasks)
    ensures shown == tasks[..|shown|]
  {
    Seqs.Take(tasks, 6)
  }
}
