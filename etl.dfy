/**
 The transform part of etl(): remove_duplicates, transform_times and
 adjust_checkout_times on the timesheets, then merge_employees_timesheets and
 aggregate_data. Reading the CSV files and writing to BigQuery are outside it.
 */
module Etl {
  import opened Wrappers
  import opened Punches
  import opened Dedup
  import opened Times
  import opened Merge
  import Aggregate

  /** The table the stages hand to the loader, as one composition. */
  function Pipeline(timesheets: seq<Punch>, employees: seq<EmployeeRecord>): seq<Aggregate.AggregateRow> {
    Aggregate.AggregateData(MergeEmployeesTimesheets(NormalizedShifts(Deduplicated(timesheets)), employees))
  }

  /** The stages in the order etl() calls them, the timesheets frame being
      changed in place by the two time stages. */
  method RunPipeline(timesheets: seq<Punch>, employees: seq<EmployeeRecord>)
    returns (finalData: seq<Aggregate.AggregateRow>)
    ensures finalData == Pipeline(timesheets, employees)
  {
    var cleaned := RemoveDuplicates(timesheets);
    var frame := new Timesheets(cleaned);
    frame.TransformTimes();
    frame.AdjustCheckoutTimes();
    var shifts := frame.ShiftRows();
    assert shifts == NormalizedShifts(cleaned) by {
      forall i | 0 <= i < |cleaned| ensures shifts[i] == NormalizedShifts(cleaned)[i] {
        assert frame.rows[i] == AdjustPunch(FillPunch(cleaned[i]));
      }
    }
    var merged := MergeEmployeesTimesheets(shifts, employees);
    finalData := Aggregate.AggregateData(merged);
  }

  /** The loader deletes and re-inserts by (year, month, branch_id): the
      pipeline's output has each such key at most once, in ascending order. */
  lemma PipelineKeysAscending(timesheets: seq<Punch>, employees: seq<EmployeeRecord>)
    ensures var out := Pipeline(timesheets, employees);
      forall i, j :: 0 <= i < j < |out| ==>
        Aggregate.GroupBefore(Aggregate.GroupOf(out[i]), Aggregate.GroupOf(out[j]))
  {
    Aggregate.AggregateKeysAscending(MergeEmployeesTimesheets(NormalizedShifts(Deduplicated(timesheets)), employees));
  }

  /** The 09:00 to 17:00 punch left by deduplication is normalised to an
      8 hour shift. */
  lemma NullCheckoutPairShifts(a: Punch, b: Punch)
    requires KeyOf(a) == KeyOf(b) && b.checkout.None?
    requires a.checkin == Some(9 * Hour) && a.checkout == Some(17 * Hour)
    ensures NormalizedShifts(Deduplicated([a, b])) == [ShiftRow(a, Some(8 * Hour), Some(8.0))]
  {
    NullCheckoutPairLeavesOne(a, b);
    assert FillPunch(a) == a && AdjustPunch(a) == a;
  }

  /** Two punches of one employee and date, the second without checkout: the
      second is dropped, and the remaining 09:00 to 17:00 shift of an employee
      with a branch and salary gives one output row of 8 hours. */
  lemma NullCheckoutPairEndToEnd(a: Punch, b: Punch, branch: int, salary: real)
    requires KeyOf(a) == KeyOf(b) && b.checkout.None?
    requires a.checkin == Some(9 * Hour) && a.checkout == Some(17 * Hour)
    ensures Pipeline([a, b], [EmployeeRecord(a.employeeId, Some(branch), Some(salary))]) ==
      [Aggregate.AggregateRow(a.date.year, a.date.month, branch, 8.0, salary, salary / 8.0)]
  {
    var employees := [EmployeeRecord(a.employeeId, Some(branch), Some(salary))];
    var s := ShiftRow(a, Some(8 * Hour), Some(8.0));
    NullCheckoutPairShifts(a, b);
    MergeKeepsEveryPunchOnce([s], employees);
    var m := MergedRow(s, Some(branch), Some(salary), a.date.year, a.date.month);
    assert MergeEmployeesTimesheets([s], employees) == [m];
    Aggregate.SingleRowAggregate(m);
  }
}
