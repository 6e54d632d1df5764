/**
 * The salary-analysis route of the employee app: the employees that have a
 * department and at least one salary are fetched, then a reduce groups them
 * per department id into a running `(name, total, count)`. Salary amounts
 * are integers here and the model stops at `(total, count)`: the average and
 * its two-decimal formatting are floating point.
 */
module SalaryAnalysis {
  import opened Wrappers
  import opened Departments

  /** An employee with its included department (if any) and salary amounts. */
  datatype Employee = Employee(department: Option<Department>, salaries: seq<int>)

  /** The accumulator entry of one department. */
  datatype Group = Group(name: string, total: int, count: nat)

  /** The query's `where`, and the reduce's guard: a department and some salary. */
  predicate Qualifies(e: Employee) {
    e.department.Some? && |e.salaries| > 0
  }

  /** `e` qualifies and belongs to department `id`. */
  predicate InDept(e: Employee, id: int) {
    Qualifies(e) && e.department.value.id == id
  }

  /** The sum of a list of amounts. */
  function Sum(s: seq<int>): int {
    if s == [] then 0 else Sum(s[..|s| - 1]) + s[|s| - 1]
  }

  /** The number of salaries of the employees of department `id`. */
  function SalaryCount(emps: seq<Employee>, id: int): nat {
    if emps == [] then 0
    else SalaryCount(emps[..|emps| - 1], id)
         + (if InDept(emps[|emps| - 1], id) then |emps[|emps| - 1].salaries| else 0)
  }

  /** The sum of the salaries of the employees of department `id`. */
  function SalaryTotal(emps: seq<Employee>, id: int): int {
    if emps == [] then 0
    else SalaryTotal(emps[..|emps| - 1], id)
         + (if InDept(emps[|emps| - 1], id) then Sum(emps[|emps| - 1].salaries) else 0)
  }

  /** The department name carried by the first employee of department `id`. */
  function FirstName(emps: seq<Employee>, id: int): Option<string> {
    if emps == [] then None
    else
      var earlier := FirstName(emps[..|emps| - 1], id);
      if earlier.Some? then earlier
      else if InDept(emps[|emps| - 1], id) then Some(emps[|emps| - 1].department.value.name)
      else None
  }

  /** The ids of the departments that have a qualifying employee. */
  function DeptIds(emps: seq<Employee>): set<int> {
    set e | e in emps && Qualifies(e) :: e.department.value.id
  }

  /** The result of the `findMany` with its `where`: the qualifying employees, in order. */
  function Queried(table: seq<Employee>): (r: seq<Employee>)
    ensures forall e :: e in r <==> e in table && Qualifies(e)
  {
    if table == [] then []
    else Queried(table[..|table| - 1])
         + (if Qualifies(table[|table| - 1]) then [table[|table| - 1]] else [])
  }

  /** `FirstName` is the name of the earliest employee of the department. */
  lemma {:induction false} FirstNameIsFirst(emps: seq<Employee>, id: int)
    ensures FirstName(emps, id).None? <==> forall k :: 0 <= k < |emps| ==> !InDept(emps[k], id)
    ensures FirstName(emps, id).Some? ==>
              exists k :: 0 <= k < |emps| && InDept(emps[k], id)
                          && FirstName(emps, id).value == emps[k].department.value.name
                          && forall j :: 0 <= j < k ==> !InDept(emps[j], id)
    decreases |emps|
  {
    if emps != [] {
      var init := emps[..|emps| - 1];
      FirstNameIsFirst(init, id);
      var f := FirstName(init, id);
      if f.Some? {
        var k :| 0 <= k < |init| && InDept(init[k], id) && f.value == init[k].department.value.name
                 && forall j :: 0 <= j < k ==> !InDept(init[j], id);
        assert emps[k] == init[k];
        assert forall j :: 0 <= j < k ==> emps[j] == init[j];
      } else {
        assert forall k :: 0 <= k < |init| ==> emps[k] == init[k];
        if InDept(emps[|emps| - 1], id) {
          assert forall j :: 0 <= j < |emps| - 1 ==> !InDept(emps[j], id);
        }
      }
    }
  }

  /** A department that has a qualifying employee has at least one salary, so its average is defined. */
  lemma {:induction false} CountPositive(emps: seq<Employee>, id: int)
    requires id in DeptIds(emps)
    ensures SalaryCount(emps, id) >= 1
    decreases |emps|
  {
    var init := emps[..|emps| - 1];
    var last := emps[|emps| - 1];
    if !InDept(last, id) {
      var e :| e in emps && Qualifies(e) && e.department.value.id == id;
      assert e != last;
      assert e in init by {
        var k :| 0 <= k < |emps| && emps[k] == e;
        assert k < |emps| - 1 && init[k] == e;
      }
      CountPositive(init, id);
    }
  }

  /** A department with no qualifying employee gets no salary, total or name. */
  lemma {:induction false} AbsentIsZero(emps: seq<Employee>, id: int)
    requires id !in DeptIds(emps)
    ensures SalaryCount(emps, id) == 0 && SalaryTotal(emps, id) == 0 && FirstName(emps, id).None?
    decreases |emps|
  {
    if emps != [] {
      var init := emps[..|emps| - 1];
      assert forall e :: e in init ==> e in emps;
      assert !InDept(emps[|emps| - 1], id);
      AbsentIsZero(init, id);
    }
  }

  /**
   * The query's `where` and the reduce's guard agree: grouping the query's
   * result gives every department the same count, total and name as
   * grouping the whole employee table would.
   */
  lemma {:induction false} QueryKeepsGroups(table: seq<Employee>, id: int)
    ensures SalaryCount(Queried(table), id) == SalaryCount(table, id)
    ensures SalaryTotal(Queried(table), id) == SalaryTotal(table, id)
    ensures FirstName(Queried(table), id) == FirstName(table, id)
    decreases |table|
  {
    if table != [] {
      var init := table[..|table| - 1];
      var last := table[|table| - 1];
      QueryKeepsGroups(init, id);
      if Qualifies(last) {
        var q := Queried(init) + [last];
        assert Queried(table) == q;
        assert q[..|q| - 1] == Queried(init);
      } else {
        assert Queried(table) == Queried(init);
      }
    }
  }

  /** No department is grouped exactly when no employee qualifies. */
  lemma NoneQualify(emps: seq<Employee>)
    ensures DeptIds(emps) == {} <==> forall e :: e in emps ==> !Qualifies(e)
  {
    if exists e :: e in emps && Qualifies(e) {
      var e :| e in emps && Qualifies(e);
      assert e.department.value.id in DeptIds(emps);
    }
  }

  /** Department ids of a list extended by one employee. */
  lemma DeptIdsSnoc(emps: seq<Employee>, e: Employee)
    ensures DeptIds(emps + [e]) == DeptIds(emps) + (if Qualifies(e) then {e.department.value.id} else {})
  {
    var ext := emps + [e];
    forall x | x in ext
      ensures x in emps || x == e
    {
    }
  }

  /** The accumulator holds exactly the expected entries for `emps`. */
  predicate Accumulates(acc: map<int, Group>, emps: seq<Employee>) {
    acc.Keys == DeptIds(emps)
    && forall id :: id in acc ==> FirstName(emps, id) == Some(acc[id].name)
                                  && acc[id].total == SalaryTotal(emps, id)
                                  && acc[id].count == SalaryCount(emps, id)
  }

  /**
   * The reduce over the fetched employees: a qualifying employee first gets
   * its department an entry `(name, 0, 0)` if it has none, then each of its
   * salaries adds its amount to `total` and one to `count`.
   */
  method GroupByDepartment(employees: seq<Employee>) returns (acc: map<int, Group>)
    ensures acc.Keys == DeptIds(employees)
    ensures acc == map[] <==> forall e :: e in employees ==> !Qualifies(e)
    ensures forall id :: id in acc ==> acc[id].count == SalaryCount(employees, id) && acc[id].count >= 1
    ensures forall id :: id in acc ==> acc[id].total == SalaryTotal(employees, id)
    ensures forall id :: id in acc ==> FirstName(employees, id) == Some(acc[id].name)
  {
    acc := map[];
    var i := 0;
    while i < |employees|
      invariant 0 <= i <= |employees|
      invariant Accumulates(acc, employees[..i])
    {
      var e := employees[i];
      ghost var old_acc := acc;
      assert employees[..i + 1] == employees[..i] + [e];
      DeptIdsSnoc(employees[..i], e);
      if Qualifies(e) {
        acc := AddEmployee(acc, e);
        BumpAccumulates(old_acc, employees[..i], e);
      } else {
        Unaffected(employees[..i], e);
      }
      i := i + 1;
    }
    assert employees[..i] == employees;
    forall id | id in acc
      ensures acc[id].count >= 1
    {
      CountPositive(employees, id);
    }
    NoneQualify(employees);
  }

  /** A non-qualifying employee changes no department's figures. */
  lemma Unaffected(emps: seq<Employee>, e: Employee)
    requires !Qualifies(e)
    ensures forall id :: SalaryCount(emps + [e], id) == SalaryCount(emps, id)
    ensures forall id :: SalaryTotal(emps + [e], id) == SalaryTotal(emps, id)
    ensures forall id :: FirstName(emps + [e], id) == FirstName(emps, id)
  {
    assert (emps + [e])[..|emps|] == emps;
  }

  /** The accumulator after the reduce has handled a qualifying employee `e`. */
  function Bump(acc: map<int, Group>, e: Employee): map<int, Group>
    requires Qualifies(e)
  {
    var id := e.department.value.id;
    if id in acc then acc[id := acc[id].(total := acc[id].total + Sum(e.salaries),
                                         count := acc[id].count + |e.salaries|)]
    else acc[id := Group(e.department.value.name, Sum(e.salaries), |e.salaries|)]
  }

  /** How one more qualifying employee changes the figures of each department. */
  lemma StepFigures(emps: seq<Employee>, e: Employee, id: int)
    requires Qualifies(e)
    ensures SalaryCount(emps + [e], id)
            == SalaryCount(emps, id) + (if e.department.value.id == id then |e.salaries| else 0)
    ensures SalaryTotal(emps + [e], id)
            == SalaryTotal(emps, id) + (if e.department.value.id == id then Sum(e.salaries) else 0)
    ensures FirstName(emps + [e], id)
            == if FirstName(emps, id).Some? || e.department.value.id != id then FirstName(emps, id)
               else Some(e.department.value.name)
  {
    assert (emps + [e])[..|emps|] == emps;
  }

  /** `Bump` keeps the accumulator exact. */
  lemma BumpAccumulates(acc: map<int, Group>, emps: seq<Employee>, e: Employee)
    requires Qualifies(e) && Accumulates(acc, emps)
    ensures Accumulates(Bump(acc, e), emps + [e])
  {
    DeptIdsSnoc(emps, e);
    var id := e.department.value.id;
    if id !in acc {
      AbsentIsZero(emps, id);
    }
    var b := Bump(acc, e);
    forall k | k in b
      ensures FirstName(emps + [e], k) == Some(b[k].name)
      ensures b[k].total == SalaryTotal(emps + [e], k)
      ensures b[k].count == SalaryCount(emps + [e], k)
    {
      StepFigures(emps, e, k);
    }
  }

  /** The salaries loop of the reduce, for a qualifying employee `e`. */
  method AddEmployee(acc0: map<int, Group>, e: Employee) returns (acc: map<int, Group>)
    requires Qualifies(e)
    ensures acc == Bump(acc0, e)
  {
    var id := e.department.value.id;
    acc := acc0;
    if id !in acc {
      acc := acc[id := Group(e.department.value.name, 0, 0)];
    }
    var base := acc[id];
    var j := 0;
    while j < |e.salaries|
      invariant 0 <= j <= |e.salaries|
      invariant id in acc
      invariant acc == acc0[id := base.(total := base.total + Sum(e.salaries[..j]), count := base.count + j)]
    {
      assert e.salaries[..j + 1][..j] == e.salaries[..j];
      acc := acc[id := acc[id].(total := acc[id].total + e.salaries[j], count := acc[id].count + 1)];
      j := j + 1;
    }
    assert e.salaries[..j] == e.salaries;
  }

  /** One row of the response per grouped department, with the figures its average comes from. */
  method Analysis(table: seq<Employee>) returns (acc: map<int, Group>)
    ensures acc.Keys == DeptIds(table)
    ensures acc == map[] <==> forall e :: e in table ==> !Qualifies(e)
    ensures forall id :: id in acc ==> acc[id].count == SalaryCount(table, id) && acc[id].count >= 1
    ensures forall id :: id in acc ==> acc[id].total == SalaryTotal(table, id)
    ensures forall id :: id in acc ==> FirstName(table, id) == Some(acc[id].name)
  {
    var employees := Queried(table);
    assert DeptIds(employees) == DeptIds(table);
    acc := GroupByDepartment(employees);
    forall id | id in acc
      ensures acc[id].count == SalaryCount(table, id)
      ensures acc[id].total == SalaryTotal(table, id)
      ensures FirstName(table, id) == Some(acc[id].name)
    {
      QueryKeepsGroups(table, id);
    }
  }
}
