/**
 aggregate_data: hours_diff is summed per (year, month, branch_id, salary),
 then hours and salary are summed per (year, month, branch_id), and
 salary_per_hour is salary / hours with 0 when hours is 0. Both groupbys use
 the pandas defaults: a row with a missing key column is dropped, and the
 groups come out in ascending key order.
 */
module Aggregate {
  import opened Wrappers
  import opened Times
  import opened Merge

  /** The key of the second groupby and of the table the loader upserts. */
  datatype BranchPeriod = BranchPeriod(year: int, month: int, branchId: int)

  /** The key of the first groupby. */
  datatype SalaryKey = SalaryKey(group: BranchPeriod, salary: real)

  /** A row of the first groupby's result. */
  datatype SalaryBucket = SalaryBucket(key: SalaryKey, hours: real)

  /** A row of the second groupby's result. */
  datatype BranchTotal = BranchTotal(group: BranchPeriod, hours: real, salary: real)

  /** A row of final_aggregated. */
  datatype AggregateRow = AggregateRow(year: int, month: int, branchId: int, hoursDiff: real, salary: real, salaryPerHour: real)

  /** The ascending order of groupby(sort=True) on (year, month, branch_id). */
  predicate GroupBefore(a: BranchPeriod, b: BranchPeriod) {
    a.year < b.year ||
    (a.year == b.year && (a.month < b.month || (a.month == b.month && a.branchId < b.branchId)))
  }

  /** The ascending order on (year, month, branch_id, salary). */
  predicate KeyBefore(a: SalaryKey, b: SalaryKey) {
    GroupBefore(a.group, b.group) || (a.group == b.group && a.salary < b.salary)
  }

  /** The first groupby's key of a merged row; None when branch_id or salary
      is missing (dropna=True). */
  function SalaryKeyOf(m: MergedRow): Option<SalaryKey> {
    if m.branchId.Some? && m.salary.Some? then
      Some(SalaryKey(BranchPeriod(m.year, m.month, m.branchId.value), m.salary.value))
    else None
  }

  /** A missing hours_diff adds nothing to a sum. */
  function HoursOrZero(m: MergedRow): real {
    if m.shift.hoursDiff.Some? then m.shift.hoursDiff.value else 0.0
  }

  predicate InGroup(m: MergedRow, g: BranchPeriod) {
    SalaryKeyOf(m).Some? && SalaryKeyOf(m).value.group == g
  }

  // ----- Reference definitions over the merged rows -----

  /** Some merged row falls in group g. */
  predicate Contributes(rows: seq<MergedRow>, g: BranchPeriod) {
    exists i :: 0 <= i < |rows| && InGroup(rows[i], g)
  }

  predicate HasKey(rows: seq<MergedRow>, k: SalaryKey) {
    exists i :: 0 <= i < |rows| && SalaryKeyOf(rows[i]) == Some(k)
  }

  /** The hours of all rows of group g. */
  function RowHours(rows: seq<MergedRow>, g: BranchPeriod): real {
    if |rows| == 0 then 0.0
    else
      var last := rows[|rows| - 1];
      RowHours(rows[..|rows| - 1], g) + (if InGroup(last, g) then HoursOrZero(last) else 0.0)
  }

  /** The hours of all rows whose (year, month, branch_id, salary) key is k. */
  function KeyHours(rows: seq<MergedRow>, k: SalaryKey): real {
    if |rows| == 0 then 0.0
    else
      var last := rows[|rows| - 1];
      KeyHours(rows[..|rows| - 1], k) + (if SalaryKeyOf(last) == Some(k) then HoursOrZero(last) else 0.0)
  }

  /** The salaries of group g, each distinct value counted once: a row adds
      its salary only when no earlier row has the same (group, salary). */
  function DistinctSalaryTotal(rows: seq<MergedRow>, g: BranchPeriod): real {
    if |rows| == 0 then 0.0
    else
      var last := rows[|rows| - 1];
      DistinctSalaryTotal(rows[..|rows| - 1], g) +
      (if InGroup(last, g) && !HasKey(rows[..|rows| - 1], SalaryKeyOf(last).value)
       then SalaryKeyOf(last).value.salary else 0.0)
  }

  lemma HasKeyPrefix(rows: seq<MergedRow>)
    requires |rows| > 0
    ensures forall k :: HasKey(rows, k) <==>
      HasKey(rows[..|rows| - 1], k) || SalaryKeyOf(rows[|rows| - 1]) == Some(k)
  {
    var init := rows[..|rows| - 1];
    forall k | HasKey(rows, k)
      ensures HasKey(init, k) || SalaryKeyOf(rows[|rows| - 1]) == Some(k)
    {
      var i :| 0 <= i < |rows| && SalaryKeyOf(rows[i]) == Some(k);
      if i < |init| {
        assert init[i] == rows[i];
      }
    }
    forall k | HasKey(init, k)
      ensures HasKey(rows, k)
    {
      var i :| 0 <= i < |init| && SalaryKeyOf(init[i]) == Some(k);
      assert rows[i] == init[i];
    }
  }

  // ----- Stage 1: groupby (year, month, branch_id, salary) -----

  predicate InBuckets(b: seq<SalaryBucket>, k: SalaryKey) {
    exists i :: 0 <= i < |b| && b[i].key == k
  }

  predicate BucketsSorted(b: seq<SalaryBucket>) {
    forall i, j :: 0 <= i < j < |b| ==> KeyBefore(b[i].key, b[j].key)
  }

  /** The hours of the buckets of group g. */
  function BucketHours(b: seq<SalaryBucket>, g: BranchPeriod): real {
    if |b| == 0 then 0.0
    else (if b[0].key.group == g then b[0].hours else 0.0) + BucketHours(b[1..], g)
  }

  /** The salary keys of the buckets of group g, summed. */
  function BucketSalary(b: seq<SalaryBucket>, g: BranchPeriod): real {
    if |b| == 0 then 0.0
    else (if b[0].key.group == g then b[0].key.salary else 0.0) + BucketSalary(b[1..], g)
  }

  /** The hours held under key k, summed over the buckets. */
  function HoursOf(b: seq<SalaryBucket>, k: SalaryKey): real {
    if |b| == 0 then 0.0
    else (if b[0].key == k then b[0].hours else 0.0) + HoursOf(b[1..], k)
  }

  lemma KeyBeforeAll(b: seq<SalaryBucket>, k: SalaryKey)
    requires BucketsSorted(b) && |b| > 0 && KeyBefore(k, b[0].key)
    ensures forall j :: 0 <= j < |b| ==> KeyBefore(k, b[j].key)
    ensures !InBuckets(b, k)
  {
  }

  lemma InBucketsCons(x: SalaryBucket, b: seq<SalaryBucket>)
    ensures forall k :: InBuckets([x] + b, k) <==> x.key == k || InBuckets(b, k)
  {
    var r := [x] + b;
    assert r[0] == x;
    assert forall j :: 0 <= j < |b| ==> r[j + 1] == b[j];
    forall k | InBuckets(r, k) && x.key != k
      ensures InBuckets(b, k)
    {
      var i :| 0 <= i < |r| && r[i].key == k;
      assert b[i - 1] == r[i];
    }
  }

  /** Adds h hours to bucket k, inserting the bucket in key order when new. */
  function AddHours(b: seq<SalaryBucket>, k: SalaryKey, h: real): (r: seq<SalaryBucket>)
    requires BucketsSorted(b)
    ensures BucketsSorted(r)
    ensures forall j :: 0 <= j < |r| ==> r[j].key == k || InBuckets(b, r[j].key)
    ensures forall k' :: InBuckets(r, k') <==> InBuckets(b, k') || k' == k
  {
    if |b| == 0 then
      var r := [SalaryBucket(k, h)];
      assert r[0].key == k;
      r
    else if b[0].key == k then
      var r := [SalaryBucket(k, b[0].hours + h)] + b[1..];
      assert forall j :: 0 < j < |b| ==> r[j] == b[j];
      assert r[0].key == b[0].key;
      r
    else if KeyBefore(k, b[0].key) then
      KeyBeforeAll(b, k);
      var r := [SalaryBucket(k, h)] + b;
      assert forall j :: 0 <= j < |b| ==> r[j + 1] == b[j];
      assert r[0].key == k;
      r
    else
      var rest := AddHours(b[1..], k, h);
      InBucketsCons(b[0], b[1..]);
      InBucketsCons(b[0], rest);
      assert [b[0]] + b[1..] == b;
      [b[0]] + rest
  }

  /** AddHours adds h to bucket k and to the hours of k's group, leaves every
      other bucket as it was, and adds k's salary to its group's salaries
      only when bucket k is new. */
  lemma {:induction false} AddHoursSums(b: seq<SalaryBucket>, k: SalaryKey, h: real)
    requires BucketsSorted(b)
    ensures forall k' :: HoursOf(AddHours(b, k, h), k') == HoursOf(b, k') + (if k' == k then h else 0.0)
    ensures forall g :: BucketHours(AddHours(b, k, h), g) == BucketHours(b, g) + (if k.group == g then h else 0.0)
    ensures forall g :: BucketSalary(AddHours(b, k, h), g) == BucketSalary(b, g) + (if k.group == g && !InBuckets(b, k) then k.salary else 0.0)
  {
    var r := AddHours(b, k, h);
    if |b| == 0 {
      assert r[1..] == [];
    } else if b[0].key == k {
      assert r[1..] == b[1..];
      assert InBuckets(b, k);
    } else if KeyBefore(k, b[0].key) {
      KeyBeforeAll(b, k);
      assert r[1..] == b;
    } else {
      AddHoursSums(b[1..], k, h);
      InBucketsCons(b[0], b[1..]);
      assert [b[0]] + b[1..] == b;
      assert r[1..] == AddHours(b[1..], k, h);
    }
  }

  /** groupby(['year', 'month', 'branch_id', 'salary']).agg({'hours_diff': 'sum'}). */
  function SumBySalary(rows: seq<MergedRow>): (b: seq<SalaryBucket>)
    ensures BucketsSorted(b)
    ensures forall k :: InBuckets(b, k) <==> HasKey(rows, k)
    ensures forall g :: BucketHours(b, g) == RowHours(rows, g)
    ensures forall g :: BucketSalary(b, g) == DistinctSalaryTotal(rows, g)
    ensures forall k :: HoursOf(b, k) == KeyHours(rows, k)
  {
    if |rows| == 0 then []
    else
      var last := rows[|rows| - 1];
      var b := SumBySalary(rows[..|rows| - 1]);
      var key := SalaryKeyOf(last);
      HasKeyPrefix(rows);
      if key.None? then b
      else
        AddHoursSums(b, key.value, HoursOrZero(last));
        AddHours(b, key.value, HoursOrZero(last))
  }

  lemma {:induction false} BucketsAbsent(b: seq<SalaryBucket>, k: SalaryKey)
    requires forall j :: 0 <= j < |b| ==> b[j].key != k
    ensures HoursOf(b, k) == 0.0
  {
    if |b| > 0 {
      BucketsAbsent(b[1..], k);
    }
  }

  /** In sorted buckets, the hours held under a bucket's key are its own. */
  lemma {:induction false} BucketsLookup(b: seq<SalaryBucket>, i: int)
    requires BucketsSorted(b) && 0 <= i < |b|
    ensures HoursOf(b, b[i].key) == b[i].hours
  {
    if i == 0 {
      BucketsAbsent(b[1..], b[0].key);
    } else {
      assert b[1..][i - 1] == b[i];
      BucketsLookup(b[1..], i - 1);
    }
  }

  /** Each stage-1 bucket holds the hours of exactly the rows with its key. */
  lemma SumBySalaryBucketHours(rows: seq<MergedRow>)
    ensures var b := SumBySalary(rows);
      forall i :: 0 <= i < |b| ==> b[i].hours == KeyHours(rows, b[i].key)
  {
    var b := SumBySalary(rows);
    forall i | 0 <= i < |b| ensures b[i].hours == KeyHours(rows, b[i].key) {
      BucketsLookup(b, i);
    }
  }

  // ----- Stage 2: groupby (year, month, branch_id) -----

  predicate InTotals(t: seq<BranchTotal>, g: BranchPeriod) {
    exists i :: 0 <= i < |t| && t[i].group == g
  }

  predicate InBucketGroups(b: seq<SalaryBucket>, g: BranchPeriod) {
    exists i :: 0 <= i < |b| && b[i].key.group == g
  }

  predicate TotalsSorted(t: seq<BranchTotal>) {
    forall i, j :: 0 <= i < j < |t| ==> GroupBefore(t[i].group, t[j].group)
  }

  function TotalsHours(t: seq<BranchTotal>, g: BranchPeriod): real {
    if |t| == 0 then 0.0
    else (if t[0].group == g then t[0].hours else 0.0) + TotalsHours(t[1..], g)
  }

  function TotalsSalary(t: seq<BranchTotal>, g: BranchPeriod): real {
    if |t| == 0 then 0.0
    else (if t[0].group == g then t[0].salary else 0.0) + TotalsSalary(t[1..], g)
  }

  lemma GroupBeforeAll(t: seq<BranchTotal>, g: BranchPeriod)
    requires TotalsSorted(t) && |t| > 0 && GroupBefore(g, t[0].group)
    ensures forall j :: 0 <= j < |t| ==> GroupBefore(g, t[j].group)
  {
  }

  lemma InTotalsCons(x: BranchTotal, t: seq<BranchTotal>)
    ensures forall g :: InTotals([x] + t, g) <==> x.group == g || InTotals(t, g)
  {
    var r := [x] + t;
    assert r[0] == x;
    assert forall j :: 0 <= j < |t| ==> r[j + 1] == t[j];
    forall g | InTotals(r, g) && x.group != g
      ensures InTotals(t, g)
    {
      var i :| 0 <= i < |r| && r[i].group == g;
      assert t[i - 1] == r[i];
    }
  }

  /** Adds h hours and s salary to the total of group g, inserting it in key
      order when new. */
  function AddTotal(t: seq<BranchTotal>, g: BranchPeriod, h: real, s: real): (r: seq<BranchTotal>)
    requires TotalsSorted(t)
    ensures TotalsSorted(r)
    ensures forall j :: 0 <= j < |r| ==> r[j].group == g || InTotals(t, r[j].group)
    ensures forall g' :: InTotals(r, g') <==> InTotals(t, g') || g' == g
  {
    if |t| == 0 then
      var r := [BranchTotal(g, h, s)];
      assert r[0].group == g;
      r
    else if t[0].group == g then
      var r := [BranchTotal(g, t[0].hours + h, t[0].salary + s)] + t[1..];
      assert forall j :: 0 < j < |t| ==> r[j] == t[j];
      assert r[0].group == t[0].group;
      r
    else if GroupBefore(g, t[0].group) then
      GroupBeforeAll(t, g);
      var r := [BranchTotal(g, h, s)] + t;
      assert forall j :: 0 <= j < |t| ==> r[j + 1] == t[j];
      assert r[0].group == g;
      r
    else
      var rest := AddTotal(t[1..], g, h, s);
      InTotalsCons(t[0], t[1..]);
      InTotalsCons(t[0], rest);
      assert [t[0]] + t[1..] == t;
      [t[0]] + rest
  }

  /** AddTotal adds h and s to the hours and salary of group g only. */
  lemma {:induction false} AddTotalSums(t: seq<BranchTotal>, g: BranchPeriod, h: real, s: real)
    requires TotalsSorted(t)
    ensures forall g' :: TotalsHours(AddTotal(t, g, h, s), g') == TotalsHours(t, g') + (if g' == g then h else 0.0)
    ensures forall g' :: TotalsSalary(AddTotal(t, g, h, s), g') == TotalsSalary(t, g') + (if g' == g then s else 0.0)
  {
    var r := AddTotal(t, g, h, s);
    if |t| == 0 {
      assert r[1..] == [];
    } else if t[0].group == g {
      assert r[1..] == t[1..];
    } else if GroupBefore(g, t[0].group) {
      GroupBeforeAll(t, g);
      assert r[1..] == t;
    } else {
      AddTotalSums(t[1..], g, h, s);
      assert r[1..] == AddTotal(t[1..], g, h, s);
    }
  }

  lemma InBucketGroupsTail(b: seq<SalaryBucket>)
    requires |b| > 0
    ensures forall g :: InBucketGroups(b, g) <==> b[0].key.group == g || InBucketGroups(b[1..], g)
  {
    forall g | InBucketGroups(b, g) && b[0].key.group != g
      ensures InBucketGroups(b[1..], g)
    {
      var i :| 0 <= i < |b| && b[i].key.group == g;
      assert b[1..][i - 1] == b[i];
    }
    forall g | InBucketGroups(b[1..], g)
      ensures InBucketGroups(b, g)
    {
      var i :| 0 <= i < |b| - 1 && b[1..][i].key.group == g;
      assert b[i + 1] == b[1..][i];
    }
  }

  /** groupby(['year', 'month', 'branch_id']).agg({'hours_diff': 'sum', 'salary': 'sum'}). */
  function SumByBranch(b: seq<SalaryBucket>): (t: seq<BranchTotal>)
    ensures TotalsSorted(t)
    ensures forall g :: InTotals(t, g) <==> InBucketGroups(b, g)
    ensures forall g :: TotalsHours(t, g) == BucketHours(b, g)
    ensures forall g :: TotalsSalary(t, g) == BucketSalary(b, g)
  {
    if |b| == 0 then []
    else
      InBucketGroupsTail(b);
      var t := SumByBranch(b[1..]);
      AddTotalSums(t, b[0].key.group, b[0].hours, b[0].key.salary);
      AddTotal(t, b[0].key.group, b[0].hours, b[0].key.salary)
  }

  lemma {:induction false} TotalsAbsent(t: seq<BranchTotal>, g: BranchPeriod)
    requires forall j :: 0 <= j < |t| ==> t[j].group != g
    ensures TotalsHours(t, g) == 0.0 && TotalsSalary(t, g) == 0.0
  {
    if |t| > 0 {
      TotalsAbsent(t[1..], g);
    }
  }

  /** In a sorted total table, the sums for a group are that group's row. */
  lemma {:induction false} TotalsLookup(t: seq<BranchTotal>, i: int)
    requires TotalsSorted(t) && 0 <= i < |t|
    ensures TotalsHours(t, t[i].group) == t[i].hours && TotalsSalary(t, t[i].group) == t[i].salary
  {
    if i == 0 {
      TotalsAbsent(t[1..], t[0].group);
    } else {
      assert t[1..][i - 1] == t[i];
      TotalsLookup(t[1..], i - 1);
    }
  }

  // ----- The final table -----

  /** The lambda of line 226: salary / hours, or 0 when hours is 0. */
  function SalaryPerHour(salary: real, hours: real): (r: real)
    ensures hours != 0.0 ==> r * hours == salary
    ensures hours == 0.0 ==> r == 0.0
  {
    if hours != 0.0 then salary / hours else 0.0
  }

  function Totals(merged: seq<MergedRow>): seq<BranchTotal> {
    SumByBranch(SumBySalary(merged))
  }

  function GroupOf(a: AggregateRow): BranchPeriod {
    BranchPeriod(a.year, a.month, a.branchId)
  }

  predicate InOutput(out: seq<AggregateRow>, g: BranchPeriod) {
    exists i :: 0 <= i < |out| && GroupOf(out[i]) == g
  }

  /** aggregate_data. */
  function AggregateData(merged: seq<MergedRow>): (out: seq<AggregateRow>)
    ensures |out| == |Totals(merged)|
    ensures forall i :: 0 <= i < |out| ==> GroupOf(out[i]) == Totals(merged)[i].group
  {
    var totals := Totals(merged);
    seq(|totals|, i requires 0 <= i < |totals| =>
      AggregateRow(totals[i].group.year, totals[i].group.month, totals[i].group.branchId,
        totals[i].hours, totals[i].salary, SalaryPerHour(totals[i].salary, totals[i].hours)))
  }

  /** The (year, month, branch_id) keys come out strictly ascending, so no key
      repeats and the loader's delete-insert sees each key once. */
  lemma AggregateKeysAscending(merged: seq<MergedRow>)
    ensures var out := AggregateData(merged);
      forall i, j :: 0 <= i < j < |out| ==> GroupOf(out[i]) != GroupOf(out[j]) && GroupBefore(GroupOf(out[i]), GroupOf(out[j]))
  {
  }

  /** A key is in the output exactly when some merged row with a branch_id
      and a salary falls in it. */
  lemma AggregateKeysAreContributingGroups(merged: seq<MergedRow>)
    ensures forall g :: InOutput(AggregateData(merged), g) <==> Contributes(merged, g)
  {
    var out := AggregateData(merged);
    var buckets := SumBySalary(merged);
    var totals := Totals(merged);
    forall g | InOutput(out, g)
      ensures Contributes(merged, g)
    {
      var i :| 0 <= i < |out| && GroupOf(out[i]) == g;
      assert InTotals(totals, g);
      var b :| 0 <= b < |buckets| && buckets[b].key.group == g;
      assert InBuckets(buckets, buckets[b].key);
      var m :| 0 <= m < |merged| && SalaryKeyOf(merged[m]) == Some(buckets[b].key);
      assert InGroup(merged[m], g);
    }
    forall g | Contributes(merged, g)
      ensures InOutput(out, g)
    {
      var m :| 0 <= m < |merged| && InGroup(merged[m], g);
      var k := SalaryKeyOf(merged[m]).value;
      assert HasKey(merged, k);
      var b :| 0 <= b < |buckets| && buckets[b].key == k;
      assert InBucketGroups(buckets, g);
      var i :| 0 <= i < |totals| && totals[i].group == g;
      assert GroupOf(out[i]) == g;
    }
  }

  /** Each output row holds the hours of every merged row of its key, the
      salaries of its key with each distinct value once, and their ratio. */
  lemma AggregateTotals(merged: seq<MergedRow>)
    ensures var out := AggregateData(merged);
      forall i :: 0 <= i < |out| ==>
        out[i].hoursDiff == RowHours(merged, GroupOf(out[i])) &&
        out[i].salary == DistinctSalaryTotal(merged, GroupOf(out[i])) &&
        out[i].salaryPerHour == SalaryPerHour(out[i].salary, out[i].hoursDiff)
  {
    var out := AggregateData(merged);
    var totals := Totals(merged);
    forall i | 0 <= i < |out|
      ensures out[i].hoursDiff == RowHours(merged, GroupOf(out[i]))
      ensures out[i].salary == DistinctSalaryTotal(merged, GroupOf(out[i]))
    {
      TotalsLookup(totals, i);
    }
  }

  /** The merged rows that have both a branch_id and a salary. */
  function Keyed(rows: seq<MergedRow>): (r: seq<MergedRow>)
    ensures forall i :: 0 <= i < |r| ==> SalaryKeyOf(r[i]).Some?
  {
    if |rows| == 0 then []
    else
      var last := rows[|rows| - 1];
      Keyed(rows[..|rows| - 1]) + (if SalaryKeyOf(last).Some? then [last] else [])
  }

  /** Keyed keeps exactly the rows with both a branch_id and a salary, each
      as often as it occurs. */
  lemma {:induction false} KeyedIsFilter(rows: seq<MergedRow>)
    ensures forall m :: multiset(Keyed(rows))[m] == if SalaryKeyOf(m).Some? then multiset(rows)[m] else 0
    ensures forall m :: m in Keyed(rows) <==> m in rows && SalaryKeyOf(m).Some?
  {
    if |rows| > 0 {
      var init, last := rows[..|rows| - 1], rows[|rows| - 1];
      KeyedIsFilter(init);
      assert rows == init + [last];
    }
  }

  lemma {:induction false} SumBySalaryKeyed(rows: seq<MergedRow>)
    ensures SumBySalary(Keyed(rows)) == SumBySalary(rows)
  {
    if |rows| > 0 {
      var init, last := rows[..|rows| - 1], rows[|rows| - 1];
      SumBySalaryKeyed(init);
      if SalaryKeyOf(last).Some? {
        var kept := Keyed(init) + [last];
        assert Keyed(rows) == kept;
        assert kept[..|kept| - 1] == Keyed(init) && kept[|kept| - 1] == last;
      } else {
        assert Keyed(rows) == Keyed(init);
        assert SumBySalary(rows) == SumBySalary(init);
      }
    }
  }

  /** A merged row without branch_id or salary changes no output row. */
  lemma AggregateIgnoresUnkeyedRows(rows: seq<MergedRow>)
    ensures AggregateData(Keyed(rows)) == AggregateData(rows)
  {
    SumBySalaryKeyed(rows);
  }

  /** An output whose merged rows all fall in one group g is a single row. */
  lemma SingleGroupSingleRow(rows: seq<MergedRow>, g: BranchPeriod)
    requires |rows| > 0
    requires forall m :: 0 <= m < |rows| ==> InGroup(rows[m], g)
    ensures |AggregateData(rows)| == 1 && GroupOf(AggregateData(rows)[0]) == g
  {
    var out := AggregateData(rows);
    AggregateKeysAscending(rows);
    AggregateKeysAreContributingGroups(rows);
    assert Contributes(rows, g);
    assert InOutput(out, g);
    forall i | 0 <= i < |out| ensures GroupOf(out[i]) == g {
      assert InOutput(out, GroupOf(out[i]));
      var m :| 0 <= m < |rows| && InGroup(rows[m], GroupOf(out[i]));
    }
    assert |out| >= 1;
    assert forall i :: 0 <= i < |out| ==> GroupOf(out[i]) == g;
    assert !GroupBefore(GroupOf(out[0]), GroupOf(out[|out| - 1]));
  }

  /** A single merged row with a branch and a salary is a single output row
      holding its own hours and salary. */
  lemma SingleRowAggregate(m: MergedRow)
    requires m.branchId.Some? && m.salary.Some?
    ensures AggregateData([m]) ==
      [AggregateRow(m.year, m.month, m.branchId.value, HoursOrZero(m), m.salary.value,
                    SalaryPerHour(m.salary.value, HoursOrZero(m)))]
  {
    var g := BranchPeriod(m.year, m.month, m.branchId.value);
    SingleGroupSingleRow([m], g);
    AggregateTotals([m]);
    assert [m][..0] == [];
    assert RowHours([m], g) == HoursOrZero(m);
    assert DistinctSalaryTotal([m], g) == m.salary.value;
  }

  /** Three employees of one branch and month: 3000 for 160 h, 3000 for 140 h
      and 4000 for 150 h give 450 h, a salary of 7000 and 7000/450 per hour. */
  lemma AggregateExample(r1: MergedRow, r2: MergedRow, r3: MergedRow, g: BranchPeriod)
    requires r1.year == g.year && r1.month == g.month && r1.branchId == Some(g.branchId)
    requires r2.year == g.year && r2.month == g.month && r2.branchId == Some(g.branchId)
    requires r3.year == g.year && r3.month == g.month && r3.branchId == Some(g.branchId)
    requires r1.salary == Some(3000.0) && r1.shift.hoursDiff == Some(160.0)
    requires r2.salary == Some(3000.0) && r2.shift.hoursDiff == Some(140.0)
    requires r3.salary == Some(4000.0) && r3.shift.hoursDiff == Some(150.0)
    ensures AggregateData([r1, r2, r3]) ==
      [AggregateRow(g.year, g.month, g.branchId, 450.0, 7000.0, 7000.0 / 450.0)]
  {
    var rows := [r1, r2, r3];
    SingleGroupSingleRow(rows, g);
    AggregateTotals(rows);
    ExampleSums(r1, r2, r3, g);
  }

  /** Stage 1 of the three-employee example: one bucket of 300 hours under
      salary 3000 and one of 150 hours under salary 4000. */
  lemma ExampleBuckets(r1: MergedRow, r2: MergedRow, r3: MergedRow, g: BranchPeriod)
    requires r1.year == g.year && r1.month == g.month && r1.branchId == Some(g.branchId)
    requires r2.year == g.year && r2.month == g.month && r2.branchId == Some(g.branchId)
    requires r3.year == g.year && r3.month == g.month && r3.branchId == Some(g.branchId)
    requires r1.salary == Some(3000.0) && r1.shift.hoursDiff == Some(160.0)
    requires r2.salary == Some(3000.0) && r2.shift.hoursDiff == Some(140.0)
    requires r3.salary == Some(4000.0) && r3.shift.hoursDiff == Some(150.0)
    ensures SumBySalary([r1, r2, r3]) ==
      [SalaryBucket(SalaryKey(g, 3000.0), 300.0), SalaryBucket(SalaryKey(g, 4000.0), 150.0)]
  {
    var k3, k4 := SalaryKey(g, 3000.0), SalaryKey(g, 4000.0);
    assert [r1, r2, r3][..2] == [r1, r2] && [r1, r2][..1] == [r1] && [r1][..0] == [];
    assert SumBySalary([r1]) == [SalaryBucket(k3, 160.0)];
    assert SumBySalary([r1, r2]) == [SalaryBucket(k3, 300.0)];
    var b := [SalaryBucket(k3, 300.0)];
    assert b[1..] == [];
    assert AddHours(b, k4, 150.0) == [b[0]] + AddHours([], k4, 150.0);
  }

  lemma ExampleSums(r1: MergedRow, r2: MergedRow, r3: MergedRow, g: BranchPeriod)
    requires r1.year == g.year && r1.month == g.month && r1.branchId == Some(g.branchId)
    requires r2.year == g.year && r2.month == g.month && r2.branchId == Some(g.branchId)
    requires r3.year == g.year && r3.month == g.month && r3.branchId == Some(g.branchId)
    requires r1.salary == Some(3000.0) && r1.shift.hoursDiff == Some(160.0)
    requires r2.salary == Some(3000.0) && r2.shift.hoursDiff == Some(140.0)
    requires r3.salary == Some(4000.0) && r3.shift.hoursDiff == Some(150.0)
    ensures RowHours([r1, r2, r3], g) == 450.0
    ensures DistinctSalaryTotal([r1, r2, r3], g) == 7000.0
  {
    var rows := [r1, r2, r3];
    assert rows[..2] == [r1, r2] && [r1, r2][..1] == [r1] && [r1][..0] == [];
    assert RowHours([r1], g) == 160.0;
    assert RowHours([r1, r2], g) == 300.0;
    assert HasKey([r1], SalaryKey(g, 3000.0));
    assert !HasKey([r1, r2], SalaryKey(g, 4000.0));
    assert DistinctSalaryTotal([r1], g) == 3000.0;
    assert DistinctSalaryTotal([r1, r2], g) == 3000.0;
  }
}
