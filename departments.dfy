/**
 * The departments route of the employee app: `GET` lists the department
 * table and `POST` adds a department after checking and trimming its name.
 * The table is a class whose list the handler extends; the id the database
 * assigns is a parameter.
 */
module Departments {
  import opened Wrappers
  import opened Strings

  datatype Department = Department(id: int, name: string)

  /**
   * The `name` field of a parsed body: absent or another falsy value
   * (null, false, 0), a string, or a truthy value that is not a string and
   * so has no `trim`.
   */
  datatype NameField = NoName | NameStr(s: string) | NameOther

  datatype Body = Failure(error: string) | Listed(departments: seq<Department>) | Created(department: Department)

  datatype Response = Response(code: int, body: Body)

  function Ids(ds: seq<Department>): set<int> {
    set d | d in ds :: d.id
  }

  /** A name `trim` leaves as it is, and not empty. */
  predicate WellFormedName(n: string) {
    n != [] && !IsJsSpace(n[0]) && !IsJsSpace(n[|n| - 1]) && Trim(n) == n
  }

  /** The name is rejected before anything is created: it is falsy, or only white space. */
  predicate NameMissing(f: NameField) {
    f.NoName? || (f.NameStr? && Trim(f.s) == [])
  }

  /** A name that passes the check is stored trimmed, and that stored name is well formed. */
  lemma StoredNameWellFormed(s: string)
    requires Trim(s) != []
    ensures WellFormedName(Trim(s))
  {
    TrimSpec(s);
    TrimIdempotent(s);
  }

  /** The empty string trims to itself. */
  lemma TrimEmpty()
    ensures Trim("") == ""
  {
  }

  class DepartmentDb {
    var departments: seq<Department>

    /** Department ids are unique. */
    ghost predicate Valid()
      reads this
    {
      forall i, j :: 0 <= i < j < |departments| ==> departments[i].id != departments[j].id
    }

    constructor(ds: seq<Department>)
      requires forall i, j :: 0 <= i < j < |ds| ==> ds[i].id != ds[j].id
      ensures Valid() && departments == ds
    {
      departments := ds;
    }

    /** `GET /api/departments`: the whole table. */
    function Get(): (r: Response)
      reads this
      ensures r.code == 200 && r.body.Listed?
      ensures forall d :: d in r.body.departments <==> d in departments
      ensures |r.body.departments| == |departments|
    {
      Response(200, Listed(departments))
    }

    /**
     * `POST /api/departments`. `body` is `None` when the request is not
     * JSON; `newId` is the id the database gives the new row.
     */
    method Post(body: Option<NameField>, newId: int) returns (r: Response)
      requires Valid() && newId !in Ids(departments)
      modifies this
      ensures Valid()
      ensures body.None? || body == Some(NameOther) ==>
                r == Response(500, Failure("Failed to create department")) && departments == old(departments)
      ensures body.Some? && NameMissing(body.value) ==>
                r == Response(400, Failure("Department name is required")) && departments == old(departments)
      ensures r.code == 201 <==> body.Some? && body.value.NameStr? && Trim(body.value.s) != []
      ensures r.code == 201 ==>
                var d := Department(newId, Trim(body.value.s));
                r == Response(201, Created(d)) && departments == old(departments) + [d]
                && WellFormedName(d.name)
    {
      if body.None? {
        return Response(500, Failure("Failed to create department"));
      }
      var data := body.value;
      if data.NoName? || (data.NameStr? && data.s == "") {
        TrimEmpty();
        return Response(400, Failure("Department name is required"));
      }
      if data.NameOther? {
        // `trim` is not a function of a non-string value: the handler throws
        return Response(500, Failure("Failed to create department"));
      }
      var name := Trim(data.s);
      if name == "" {
        return Response(400, Failure("Department name is required"));
      }
      var d := Department(newId, name);
      Insert(d);
      StoredNameWellFormed(data.s);
      r := Response(201, Created(d));
    }

    /** `department.create`: the row is appended under its fresh id. */
    method Insert(d: Department)
      requires Valid() && d.id !in Ids(departments)
      modifies this
      ensures Valid() && departments == old(departments) + [d]
    {
      assert forall k :: 0 <= k < |departments| ==> departments[k] in departments;
      departments := departments + [d];
    }
  }
}
