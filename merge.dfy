/**
 merge_employees_timesheets: the employees table's employe_id column is
 renamed to employee_id, the normalised timesheets are left-joined to it on
 employee_id, and year and month are taken from the punch date.
 */
module Merge {
  import opened Wrappers
  import opened Punches
  import opened Times

  /** A row of employees.csv under its own column names. */
  datatype EmployeeRecord = EmployeeRecord(employeId: int, branchId: Option<int>, salary: Option<real>)

  /** An employee row once its id column is named as in the timesheets. */
  datatype Employee = Employee(employeeId: int, branchId: Option<int>, salary: Option<real>)

  /** A row of the merged frame: the shift, the employee columns (missing when
      no employee matched) and the period of the punch date. */
  datatype MergedRow = MergedRow(shift: ShiftRow, branchId: Option<int>, salary: Option<real>, year: int, month: int)

  /** The explicit schema mapping of the rename step. */
  function RenameEmployeeId(records: seq<EmployeeRecord>): (r: seq<Employee>)
    ensures |r| == |records|
  {
    seq(|records|, i requires 0 <= i < |records| =>
      Employee(records[i].employeId, records[i].branchId, records[i].salary))
  }

  /** The employees with the given id, in table order. */
  function Matching(employees: seq<Employee>, id: int): (r: seq<Employee>)
    ensures |r| <= |employees|
    ensures forall m :: 0 <= m < |r| ==> r[m].employeeId == id
  {
    if |employees| == 0 then []
    else
      var last := employees[|employees| - 1];
      Matching(employees[..|employees| - 1], id) + (if last.employeeId == id then [last] else [])
  }

  /** Each employee with the id is matched as often as the table lists it,
      and no other employee is. */
  lemma {:induction false} MatchingCount(employees: seq<Employee>, id: int)
    ensures forall e :: multiset(Matching(employees, id))[e] == if e.employeeId == id then multiset(employees)[e] else 0
  {
    if |employees| > 0 {
      var init, last := employees[..|employees| - 1], employees[|employees| - 1];
      MatchingCount(init, id);
      assert employees == init + [last];
    }
  }

  /** The matches are exactly the employees with the id. */
  lemma MatchingMembers(employees: seq<Employee>, id: int)
    ensures forall e :: e in Matching(employees, id) <==> e in employees && e.employeeId == id
  {
    MatchingCount(employees, id);
    forall e ensures e in Matching(employees, id) <==> e in employees && e.employeeId == id {
      assert e in Matching(employees, id) <==> multiset(Matching(employees, id))[e] > 0;
      assert e in employees <==> multiset(employees)[e] > 0;
    }
  }

  function Joined(s: ShiftRow, e: Option<Employee>): MergedRow {
    MergedRow(s,
      if e.Some? then e.value.branchId else None,
      if e.Some? then e.value.salary else None,
      s.punch.date.year, s.punch.date.month)
  }

  /** The rows a left join produces for one shift: one per matching employee,
      or a single row with missing employee columns. */
  function JoinShift(s: ShiftRow, employees: seq<Employee>): (r: seq<MergedRow>)
    ensures |r| >= 1
    ensures forall m :: 0 <= m < |r| ==> r[m].shift == s
  {
    var ms := Matching(employees, s.punch.employeeId);
    if |ms| == 0 then [Joined(s, None)]
    else seq(|ms|, j requires 0 <= j < |ms| => Joined(s, Some(ms[j])))
  }

  /** A punch no employee matches gets a single row with missing employee
      columns. */
  lemma JoinShiftUnmatched(s: ShiftRow, employees: seq<Employee>)
    requires forall i :: 0 <= i < |employees| ==> employees[i].employeeId != s.punch.employeeId
    ensures JoinShift(s, employees) == [Joined(s, None)]
  {
    MatchingNone(employees, s.punch.employeeId);
  }

  /** A matched punch gets one row per matching employee, each with the
      branch_id and salary of an employee of its id and the punch's year and
      month. */
  lemma JoinShiftMatched(s: ShiftRow, employees: seq<Employee>)
    requires exists i :: 0 <= i < |employees| && employees[i].employeeId == s.punch.employeeId
    ensures var r := JoinShift(s, employees);
      |r| == |Matching(employees, s.punch.employeeId)| &&
      forall m :: 0 <= m < |r| ==>
        r[m].year == s.punch.date.year && r[m].month == s.punch.date.month &&
        exists e :: e in employees && e.employeeId == s.punch.employeeId &&
                    r[m].branchId == e.branchId && r[m].salary == e.salary
  {
    var id := s.punch.employeeId;
    var ms := Matching(employees, id);
    var r := JoinShift(s, employees);
    MatchingMembers(employees, id);
    var i :| 0 <= i < |employees| && employees[i].employeeId == id;
    assert employees[i] in ms;
    forall m | 0 <= m < |r|
      ensures exists e :: e in employees && e.employeeId == id && r[m].branchId == e.branchId && r[m].salary == e.salary
    {
      assert ms[m] in ms;
      assert r[m] == Joined(s, Some(ms[m]));
    }
  }

  /** Every employee of the punch's id contributes a row. */
  lemma JoinShiftCoversMatches(s: ShiftRow, employees: seq<Employee>)
    ensures forall e :: e in employees && e.employeeId == s.punch.employeeId ==> Joined(s, Some(e)) in JoinShift(s, employees)
  {
    var id := s.punch.employeeId;
    var ms := Matching(employees, id);
    var r := JoinShift(s, employees);
    MatchingMembers(employees, id);
    forall e | e in employees && e.employeeId == id
      ensures Joined(s, Some(e)) in r
    {
      assert e in ms;
      var j :| 0 <= j < |ms| && ms[j] == e;
      assert r[j] == Joined(s, Some(e));
    }
  }

  /** pd.merge(how='left'): the shifts in order, each expanded by JoinShift. */
  function LeftJoin(shifts: seq<ShiftRow>, employees: seq<Employee>): (r: seq<MergedRow>)
    ensures |r| >= |shifts|
  {
    if |shifts| == 0 then []
    else LeftJoin(shifts[..|shifts| - 1], employees) + JoinShift(shifts[|shifts| - 1], employees)
  }

  function MergeEmployeesTimesheets(shifts: seq<ShiftRow>, employees: seq<EmployeeRecord>): seq<MergedRow> {
    LeftJoin(shifts, RenameEmployeeId(employees))
  }

  predicate UniqueEmployeeIds(employees: seq<EmployeeRecord>) {
    forall i, j :: 0 <= i < j < |employees| ==> employees[i].employeId != employees[j].employeId
  }

  /** The employee row with the given id, searched independently of the join. */
  function FindEmployee(employees: seq<EmployeeRecord>, id: int): (r: Option<EmployeeRecord>)
    ensures r.Some? ==> r.value in employees && r.value.employeId == id
    ensures r.None? ==> forall i :: 0 <= i < |employees| ==> employees[i].employeId != id
  {
    if |employees| == 0 then None
    else if employees[0].employeId == id then Some(employees[0])
    else FindEmployee(employees[1..], id)
  }

  lemma {:induction false} MatchingNone(employees: seq<Employee>, id: int)
    requires forall i :: 0 <= i < |employees| ==> employees[i].employeeId != id
    ensures Matching(employees, id) == []
  {
    if |employees| > 0 {
      MatchingNone(employees[..|employees| - 1], id);
    }
  }

  lemma {:induction false} MatchingUnique(employees: seq<Employee>, id: int)
    requires forall i, j :: 0 <= i < j < |employees| ==> employees[i].employeeId != employees[j].employeeId
    ensures |Matching(employees, id)| <= 1
    ensures forall i :: 0 <= i < |employees| && employees[i].employeeId == id ==> Matching(employees, id) == [employees[i]]
  {
    if |employees| > 0 {
      var init := employees[..|employees| - 1];
      MatchingUnique(init, id);
      var last := employees[|employees| - 1];
      if last.employeeId == id {
        MatchingNone(init, id);
      }
    }
  }

  lemma JoinShiftUnique(s: ShiftRow, employees: seq<Employee>)
    requires forall i, j :: 0 <= i < j < |employees| ==> employees[i].employeeId != employees[j].employeeId
    ensures |JoinShift(s, employees)| == 1
  {
    MatchingUnique(employees, s.punch.employeeId);
  }

  lemma {:induction false} LeftJoinUnique(shifts: seq<ShiftRow>, employees: seq<Employee>)
    requires forall i, j :: 0 <= i < j < |employees| ==> employees[i].employeeId != employees[j].employeeId
    ensures |LeftJoin(shifts, employees)| == |shifts|
    ensures forall i :: 0 <= i < |shifts| ==>
      LeftJoin(shifts, employees)[i] == JoinShift(shifts[i], employees)[0]
  {
    if |shifts| > 0 {
      var init, last := shifts[..|shifts| - 1], shifts[|shifts| - 1];
      LeftJoinUnique(init, employees);
      JoinShiftUnique(last, employees);
      var front, back := LeftJoin(init, employees), JoinShift(last, employees);
      assert LeftJoin(shifts, employees) == front + back;
      forall i | 0 <= i < |shifts|
        ensures (front + back)[i] == JoinShift(shifts[i], employees)[0]
      {
        if i < |init| {
          assert shifts[i] == init[i];
        }
      }
    }
  }

  /** With unique employee ids the merge neither drops nor repeats a punch:
      row i of the result is punch i, with the columns of its employee, or
      missing ones when there is none, and the year and month of its date. */
  lemma MergeKeepsEveryPunchOnce(shifts: seq<ShiftRow>, employees: seq<EmployeeRecord>)
    requires UniqueEmployeeIds(employees)
    ensures |MergeEmployeesTimesheets(shifts, employees)| == |shifts|
    ensures forall i :: 0 <= i < |shifts| ==>
      var m := MergeEmployeesTimesheets(shifts, employees)[i];
      var e := FindEmployee(employees, shifts[i].punch.employeeId);
      m.shift == shifts[i] &&
      m.year == shifts[i].punch.date.year && m.month == shifts[i].punch.date.month &&
      (e.None? ==> m.branchId.None? && m.salary.None?) &&
      (e.Some? ==> m.branchId == e.value.branchId && m.salary == e.value.salary)
  {
    var renamed := RenameEmployeeId(employees);
    LeftJoinUnique(shifts, renamed);
    forall i | 0 <= i < |shifts|
      ensures var m := MergeEmployeesTimesheets(shifts, employees)[i];
        var e := FindEmployee(employees, shifts[i].punch.employeeId);
        (e.None? ==> m.branchId.None? && m.salary.None?) &&
        (e.Some? ==> m.branchId == e.value.branchId && m.salary == e.value.salary)
    {
      var id := shifts[i].punch.employeeId;
      var e := FindEmployee(employees, id);
      MatchingUnique(renamed, id);
      if e.Some? {
        var j :| 0 <= j < |employees| && employees[j] == e.value;
        assert renamed[j].employeeId == id;
      } else {
        MatchingNone(renamed, id);
      }
    }
  }

  /** An employee id listed twice that no punch carries changes nothing. */
  lemma RepeatedUnusedIdKeepsCount(s: ShiftRow, a: EmployeeRecord, b: EmployeeRecord)
    requires a.employeId == b.employeId && a.employeId != s.punch.employeeId
    ensures MergeEmployeesTimesheets([s], [a, b]) == [Joined(s, None)]
  {
    var renamed := RenameEmployeeId([a, b]);
    JoinShiftUnmatched(s, renamed);
    assert [s][..0] == [];
    assert LeftJoin([s], renamed) == LeftJoin([], renamed) + JoinShift(s, renamed);
  }

  /** An employee id listed twice repeats each of that employee's punches. */
  lemma RepeatedIdRepeatsPunch(s: ShiftRow, a: EmployeeRecord, b: EmployeeRecord)
    requires a.employeId == s.punch.employeeId && b.employeId == s.punch.employeeId
    ensures |MergeEmployeesTimesheets([s], [a, b])| == 2
  {
    var renamed := RenameEmployeeId([a, b]);
    assert renamed[..1] == [renamed[0]];
    assert renamed[..1][..0] == [];
    assert Matching(renamed, s.punch.employeeId) == [renamed[0], renamed[1]];
    assert [s][..0] == [];
    assert LeftJoin([s], renamed) == LeftJoin([], renamed) + JoinShift(s, renamed);
  }
}
