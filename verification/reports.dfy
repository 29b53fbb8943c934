/** The reports view (components/Reports.tsx): the KPI counts, the lead
    sources chart, the revenue per month of January to June, and the activity
    log. Parsing a date string is a parameter: `monthOf` is
    `new Date(s).getMonth()` (None for an invalid date) and `timeOf` is
    `new Date(s).getTime()`. */
module Reports {
  import opened Wrappers
  import Seqs
  import opened Crm
  import Tally

  function StatusTest(status: LeadStatus): Lead -> bool
  {
    (l: Lead) => l.status == status
  }

  /** `newLeadsCount`: the leads of status New. */
  function NewLeadsCount(leads: seq<Lead>): (n: nat)
    ensures n <= |leads|
    ensures n == |leads| <==> forall i :: 0 <= i < |leads| ==> leads[i].status == New
  {
    Seqs.FilterKeepsAll(leads, StatusTest(New));
    |Seqs.Filter(leads, StatusTest(New))|
  }

  /** `wonLeadsCount`: the leads of status Closed Won. */
  function WonLeadsCount(leads: seq<Lead>): (n: nat)
    ensures n <= |leads|
    ensures n == |leads| <==> forall i :: 0 <= i < |leads| ==> leads[i].status == ClosedWon
  {
    Seqs.FilterKeepsAll(leads, StatusTest(ClosedWon));
    |Seqs.Filter(leads, StatusTest(ClosedWon))|
  }

  /** A KPI that is a quotient: the label '0' when there are no leads,
      otherwise `numerator / denominator` (its decimal rendering with `toFixed`
      is not modelled). */
  datatype Kpi = ZeroLabel | Quotient(numerator: int, denominator: nat)

  /** `conversionRate`: won leads per hundred leads. */
  function ConversionRate(leads: seq<Lead>): (rate: Kpi)
    ensures rate.ZeroLabel? <==> |leads| == 0
    ensures rate.Quotient? ==> rate.denominator == |leads| > 0
    ensures rate.Quotient? ==> rate.numerator == 100 * WonLeadsCount(leads)
    ensures rate.Quotient? ==> 0 <= rate.numerator <= 100 * rate.denominator
  {
    if |leads| > 0 then Quotient(WonLeadsCount(leads) * 100, |leads|) else ZeroLabel
  }

  /** `avgDealSize`: the total value per lead. */
  function AverageDealSize(leads: seq<Lead>): (size: Kpi)
    ensures size.ZeroLabel? <==> |leads| == 0
    ensures size.Quotient? ==> size.denominator == |leads| > 0 && size.numerator == TotalValue(leads)
  {
    if |leads| > 0 then Quotient(TotalValue(leads), |leads|) else ZeroLabel
  }

  /** `lead.source || 'Other'`. */
  function EffectiveSource(l: Lead): (source: string)
    ensures source != ""
    ensures l.source.Some? && l.source.value != "" ==> source == l.source.value
  {
    if l.source.Some? && l.source.value != "" then l.source.value else "Other"
  }

  function Sources(leads: seq<Lead>): (s: seq<string>)
    ensures |s| == |leads| && forall i :: 0 <= i < |leads| ==> s[i] == EffectiveSource(leads[i])
  {
    seq(|leads|, i requires 0 <= i < |leads| => EffectiveSource(leads[i]))
  }

  /** `sourceCounts` with `Object.entries`: one entry per source, leads
      without one under 'Other'; each count is the number of leads of that
      source and the counts add up to the number of leads. */
  method SourceCounts(leads: seq<Lead>) returns (entries: seq<(string, nat)>)
    ensures forall s :: s in Tally.KeysOf(entries) <==> exists i :: 0 <= i < |leads| && EffectiveSource(leads[i]) == s
    ensures forall j :: 0 <= j < |entries| ==>
      entries[j].1 == multiset(Sources(leads))[entries[j].0] && entries[j].1 >= 1
    ensures Tally.SumCounts(entries) == |leads|
  {
    entries := Tally.Tally(Sources(leads));
    Tally.DistinctKeys(Sources(leads));
  }

  /** A lead without a source counts under 'Other'. */
  lemma UnsourcedCountsAsOther(leads: seq<Lead>, i: nat)
    requires i < |leads| && (leads[i].source.None? || leads[i].source == Some(""))
    ensures EffectiveSource(leads[i]) == "Other"
    ensures multiset(Sources(leads))["Other"] >= 1
  {
    assert Sources(leads)[i] == "Other";
  }

  const MonthLabels: seq<string> := ["Jan", "Feb", "Mar", "Apr", "May", "Jun"]

  /** A lead counts for month `m` when it has a creation date that parses to
      that month. */
  predicate CreatedIn(l: Lead, monthOf: string -> Option<int>, m: int)
  {
    l.createdAt.Some? && l.createdAt.value != "" && monthOf(l.createdAt.value) == Some(m)
  }

  function CreatedInTest(monthOf: string -> Option<int>, m: int): Lead -> bool
  {
    (l: Lead) => CreatedIn(l, monthOf, m)
  }

  /** The revenue of the leads created in month `m`. */
  function MonthRevenue(leads: seq<Lead>, monthOf: string -> Option<int>, m: int): int
  {
    TotalValue(Seqs.Filter(leads, CreatedInTest(monthOf, m)))
  }

  datatype Bucket = Bucket(name: string, value: int)

  /** `monthlyRevenueData`: six buckets, Jan to Jun, updated in place by the
      `forEach` over the leads; a lead adds its value to the bucket of its
      creation month when that month is one of the six, and is ignored
      otherwise. */
  method MonthlyRevenue(leads: seq<Lead>, monthOf: string -> Option<int>) returns (buckets: seq<Bucket>)
    ensures |buckets| == 6
    ensures forall m :: 0 <= m < 6 ==> buckets[m] == Bucket(MonthLabels[m], MonthRevenue(leads, monthOf, m))
  {
    var values := new int[6](_ => 0);
    for i := 0 to |leads|
      invariant values[..] == Revenues(leads[..i], monthOf)
    {
      var lead := leads[i];
      ghost var before := values[..];
      if lead.createdAt.Some? && lead.createdAt.value != "" {
        var monthIdx := monthOf(lead.createdAt.value);
        if monthIdx.Some? && 0 <= monthIdx.value < 6 {
          values[monthIdx.value] := values[monthIdx.value] + lead.value;
          assert values[..] == before[monthIdx.value := before[monthIdx.value] + lead.value];
        }
      }
      assert leads[..i + 1][..i] == leads[..i];
    }
    assert leads[..|leads|] == leads;
    RevenuesAreMonthRevenues(leads, monthOf);
    buckets := seq(6, m requires 0 <= m < 6 reads values => Bucket(MonthLabels[m], values[m]));
  }

  /** The `forEach` callback: the lead's value goes to the bucket of its
      creation month when that is one of the six. */
  function AddLead(values: seq<int>, lead: Lead, monthOf: string -> Option<int>): (r: seq<int>)
    requires |values| == 6
    ensures |r| == 6
  {
    if lead.createdAt.Some? && lead.createdAt.value != "" && monthOf(lead.createdAt.value).Some? &&
      0 <= monthOf(lead.createdAt.value).value < 6
    then values[monthOf(lead.createdAt.value).value := values[monthOf(lead.createdAt.value).value] + lead.value]
    else values
  }

  /** The six bucket values after the `forEach` has run over `leads`. */
  function Revenues(leads: seq<Lead>, monthOf: string -> Option<int>): (r: seq<int>)
    ensures |r| == 6
  {
    if |leads| == 0 then [0, 0, 0, 0, 0, 0]
    else AddLead(Revenues(leads[..|leads| - 1], monthOf), leads[|leads| - 1], monthOf)
  }

  /** Each bucket ends up holding the revenue of the leads created in its
      month. */
  lemma {:induction false} RevenuesAreMonthRevenues(leads: seq<Lead>, monthOf: string -> Option<int>)
    ensures forall m :: 0 <= m < 6 ==> Revenues(leads, monthOf)[m] == MonthRevenue(leads, monthOf, m)
  {
    if |leads| > 0 {
      var init, last := leads[..|leads| - 1], leads[|leads| - 1];
      RevenuesAreMonthRevenues(init, monthOf);
      assert leads == init + [last];
      var r := Revenues(init, monthOf);
      forall m | 0 <= m < 6
        ensures Revenues(leads, monthOf)[m] == MonthRevenue(leads, monthOf, m)
      {
        MonthRevenueAppend(init, last, monthOf, m);
        assert AddLead(r, last, monthOf)[m] == r[m] + if CreatedIn(last, monthOf, m) then last.value else 0;
      }
    }
  }

  /** A lead added to the list adds its value to its month only. */
  lemma MonthRevenueAppend(leads: seq<Lead>, lead: Lead, monthOf: string -> Option<int>, m: int)
    ensures MonthRevenue(leads + [lead], monthOf, m) ==
      MonthRevenue(leads, monthOf, m) + if CreatedIn(lead, monthOf, m) then lead.value else 0
  {
    Seqs.FilterConcat(leads, [lead], CreatedInTest(monthOf, m));
    TotalValueConcat(Seqs.Filter(leads, CreatedInTest(monthOf, m)), Seqs.Filter([lead], CreatedInTest(monthOf, m)));
  }

  predicate CreatedInFirstHalf(l: Lead, monthOf: string -> Option<int>)
  {
    l.createdAt.Some? && l.createdAt.value != "" && monthOf(l.createdAt.value).Some? &&
      0 <= monthOf(l.createdAt.value).value < 6
  }

  function FirstHalfTest(monthOf: string -> Option<int>): Lead -> bool
  {
    (l: Lead) => CreatedInFirstHalf(l, monthOf)
  }

  /** Removing the first lead removes its value from its month only. */
  lemma MonthRevenueFirst(leads: seq<Lead>, monthOf: string -> Option<int>, m: int)
    requires |leads| > 0
    ensures MonthRevenue(leads, monthOf, m) ==
      (if CreatedIn(leads[0], monthOf, m) then leads[0].value else 0) + MonthRevenue(leads[1..], monthOf, m)
  {
  }

  lemma FirstHalfFirst(leads: seq<Lead>, monthOf: string -> Option<int>)
    requires |leads| > 0
    ensures TotalValue(Seqs.Filter(leads, FirstHalfTest(monthOf))) ==
      (if CreatedInFirstHalf(leads[0], monthOf) then leads[0].value else 0) +
      TotalValue(Seqs.Filter(leads[1..], FirstHalfTest(monthOf)))
  {
  }

  /** The six buckets together hold the value of exactly the leads created
      from January to June. */
  lemma {:induction false} BucketsCoverFirstHalf(leads: seq<Lead>, monthOf: string -> Option<int>)
    ensures MonthRevenue(leads, monthOf, 0) + MonthRevenue(leads, monthOf, 1) + MonthRevenue(leads, monthOf, 2) +
      MonthRevenue(leads, monthOf, 3) + MonthRevenue(leads, monthOf, 4) + MonthRevenue(leads, monthOf, 5) ==
      TotalValue(Seqs.Filter(leads, FirstHalfTest(monthOf)))
  {
    if |leads| > 0 {
      BucketsCoverFirstHalf(leads[1..], monthOf);
      MonthRevenueFirst(leads, monthOf, 0);
      MonthRevenueFirst(leads, monthOf, 1);
      MonthRevenueFirst(leads, monthOf, 2);
      MonthRevenueFirst(leads, monthOf, 3);
      MonthRevenueFirst(leads, monthOf, 4);
      MonthRevenueFirst(leads, monthOf, 5);
      FirstHalfFirst(leads, monthOf);
      LeadInOneBucket(leads[0], monthOf);
    }
  }

  /** A lead falls in at most one of the six months, and in one exactly when
      it was created from January to June. */
  lemma LeadInOneBucket(l: Lead, monthOf: string -> Option<int>)
    ensures (if CreatedIn(l, monthOf, 0) then l.value else 0) + (if CreatedIn(l, monthOf, 1) then l.value else 0) +
      (if CreatedIn(l, monthOf, 2) then l.value else 0) + (if CreatedIn(l, monthOf, 3) then l.value else 0) +
      (if CreatedIn(l, monthOf, 4) then l.value else 0) + (if CreatedIn(l, monthOf, 5) then l.value else 0) ==
      if CreatedInFirstHalf(l, monthOf) then l.value else 0
  {
  }

  // ------------------------------------------------------------ activity log

  datatype ActivityKind = DealActivity | TaskActivity | EmailActivity

  /** An entry of the activity log; tasks carry no date. */
  datatype Activity = Activity(kind: ActivityKind, subject: string, date: Option<string>)

  /** The entries before sorting: one per lead, then task, then email. */
  function Activities(leads: seq<Lead>, tasks: seq<Task>, emails: seq<Email>): (all: seq<Activity>)
    ensures |all| == |leads| + |tasks| + |emails|
    ensures forall i :: 0 <= i < |leads| ==>
      all[i] == Activity(DealActivity, "New Deal: " + leads[i].dealName, leads[i].createdAt)
    ensures forall i :: 0 <= i < |tasks| ==>
      all[|leads| + i] == Activity(TaskActivity, "Task Created: " + tasks[i].title, None)
    ensures forall i :: 0 <= i < |emails| ==>
      all[|leads| + |tasks| + i] == Activity(EmailActivity, "Email Sent: " + emails[i].subject, Some(emails[i].timestamp))
  {
    seq(|leads|, i requires 0 <= i < |leads| =>
        Activity(DealActivity, "New Deal: " + leads[i].dealName, leads[i].createdAt)) +
    seq(|tasks|, i requires 0 <= i < |tasks| =>
        Activity(TaskActivity, "Task Created: " + tasks[i].title, None)) +
    seq(|emails|, i requires 0 <= i < |emails| =>
        Activity(EmailActivity, "Email Sent: " + emails[i].subject, Some(emails[i].timestamp)))
  }

  /** `!a.date` is false. */
  predicate Dated(a: Activity)
  {
    a.date.Some? && a.date.value != ""
  }

  /** The comparator's order: `a` goes strictly before `b` when `a` is dated
      and `b` is not, or both are dated and `a` is newer. */
  predicate Precedes(a: Activity, b: Activity, timeOf: string -> int)
  {
    Dated(a) && (!Dated(b) || timeOf(a.date.value) > timeOf(b.date.value))
  }

  /** No entry goes strictly before one listed earlier. */
  predicate Ordered(s: seq<Activity>, timeOf: string -> int)
  {
    forall i, j :: 0 <= i < j < |s| ==> !Precedes(s[j], s[i], timeOf)
  }

  /** Put `a` after every entry it does not go strictly before. */
  function Insert(a: Activity, s: seq<Activity>, timeOf: string -> int): (r: seq<Activity>)
    ensures multiset(r) == multiset(s) + multiset{a}
  {
    if |s| == 0 then [a]
    else if Precedes(a, s[0], timeOf) then [a] + s
    else
      assert s == [s[0]] + s[1..];
      [s[0]] + Insert(a, s[1..], timeOf)
  }

  lemma OrderedCons(x: Activity, s: seq<Activity>, timeOf: string -> int)
    requires Ordered(s, timeOf)
    requires forall j :: 0 <= j < |s| ==> !Precedes(s[j], x, timeOf)
    ensures Ordered([x] + s, timeOf)
  {
    var r := [x] + s;
    forall i, j | 0 <= i < j < |r| ensures !Precedes(r[j], r[i], timeOf) {
      assert r[j] == s[j - 1];
      if i > 0 {
        assert r[i] == s[i - 1];
      }
    }
  }

  /** Inserting into an ordered list keeps it ordered. */
  lemma {:induction false} InsertOrdered(a: Activity, s: seq<Activity>, timeOf: string -> int)
    requires Ordered(s, timeOf)
    ensures Ordered(Insert(a, s, timeOf), timeOf)
  {
    if |s| > 0 {
      if Precedes(a, s[0], timeOf) {
        forall j | 0 <= j < |s| ensures !Precedes(s[j], a, timeOf) {
          if j > 0 {
            assert !Precedes(s[j], s[0], timeOf);
          }
        }
        OrderedCons(a, s, timeOf);
      } else {
        var rest := Insert(a, s[1..], timeOf);
        InsertOrdered(a, s[1..], timeOf);
        forall j | 0 <= j < |rest| ensures !Precedes(rest[j], s[0], timeOf) {
          assert rest[j] in multiset(rest);
          if rest[j] != a {
            assert rest[j] in multiset(s[1..]);
            var k :| 0 <= k < |s[1..]| && s[1..][k] == rest[j];
            assert s[k + 1] == rest[j];
          }
        }
        OrderedCons(s[0], rest, timeOf);
      }
    }
  }

  /** The `sort`, stable: entries that do not go before one another keep
      their order. */
  function SortActivities(s: seq<Activity>, timeOf: string -> int): (r: seq<Activity>)
    ensures multiset(r) == multiset(s)
    ensures Ordered(r, timeOf)
  {
    if |s| == 0 then []
    else
      assert s == s[..|s| - 1] + [s[|s| - 1]];
      var sorted := SortActivities(s[..|s| - 1], timeOf);
      InsertOrdered(s[|s| - 1], sorted, timeOf);
      Insert(s[|s| - 1], sorted, timeOf)
  }

  /** The activity log: the entries sorted, then the first ten. */
  function ActivityLog(leads: seq<Lead>, tasks: seq<Task>, emails: seq<Email>, timeOf: string -> int): (log: seq<Activity>)
    ensures |log| <= 10
    ensures |log| == if |leads| + |tasks| + |emails| < 10 then |leads| + |tasks| + |emails| else 10
    ensures Ordered(log, timeOf)
  {
    var sorted := SortActivities(Activities(leads, tasks, emails), timeOf);
    assert |sorted| == |multiset(sorted)|;
    Seqs.Take(sorted, 10)
  }

  /** In the log, dated entries come before undated ones, and dated entries
      run from newest to oldest. */
  lemma ActivityLogOrder(leads: seq<Lead>, tasks: seq<Task>, emails: seq<Email>, timeOf: string -> int, i: nat, j: nat)
    requires i < j < |ActivityLog(leads, tasks, emails, timeOf)|
    ensures var log := ActivityLog(leads, tasks, emails, timeOf);
      (Dated(log[j]) ==> Dated(log[i])) &&
      (Dated(log[i]) && Dated(log[j]) ==> timeOf(log[i].date.value) >= timeOf(log[j].date.value))
  {
  }

  /** Before truncation the log holds exactly one entry per lead, task and
      email; the log is the start of it. */
  lemma ActivityLogEntries(leads: seq<Lead>, tasks: seq<Task>, emails: seq<Email>, timeOf: string -> int)
    ensures var sorted := SortActivities(Activities(leads, tasks, emails), timeOf);
      multiset(sorted) == multiset(Activities(leads, tasks, emails)) &&
      |sorted| == |leads| + |tasks| + |emails| &&
      ActivityLog(leads, tasks, emails, timeOf) == sorted[..|ActivityLog(leads, tasks, emails, timeOf)|]
  {
    var sorted := SortActivities(Activities(leads, tasks, emails), timeOf);
    assert |sorted| == |multiset(sorted)|;
  }
}
