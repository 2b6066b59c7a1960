/**
 * The student and saved-plan lists the classroom context keeps
 * (src/contexts/ClassroomContext.jsx): which records count as students,
 * how a new student is tagged, how an update merges a student's extra map,
 * and which saved plans are listed, newest first.
 */
module Roster {
  import opened Wrappers
  import opened JsonData
  import opened Seqs
  import opened Dashboard
  import opened GradeEditor

  // --------------------------------------------------------------- students

  /** `p.extra?.role !== 'professor'` */
  predicate IsStudentRecord(p: Json) {
    Member(Get(p, "extra"), "role") != Some(Str("professor"))
  }

  /** The elements of an API reply, or none when it is not an array (`Array.isArray(data) ? data : []`). */
  function ArrayItems(data: Json): seq<Json> {
    match data
    case Arr(items) => items
    case _ => []
  }

  /**
   * `fetchStudents`: the records that are not professors, in their original
   * order. A null element makes `p.extra` throw, and the catch answers the
   * empty list.
   */
  function FetchStudents(data: Json): (r: seq<Json>)
    ensures Null in ArrayItems(data) ==> r == []
    ensures Null !in ArrayItems(data) ==> forall p :: p in r <==> p in ArrayItems(data) && IsStudentRecord(p)
    ensures Null !in ArrayItems(data) ==> forall p :: p in ArrayItems(data) ==>
      multiset(r)[p] == if IsStudentRecord(p) then multiset(ArrayItems(data))[p] else 0
  {
    var all := ArrayItems(data);
    if Null in all then []
    else
      FilterCount(all, IsStudentRecord);
      Filter(all, IsStudentRecord)
  }

  /** One record is listed alone exactly when it is not a professor's. */
  lemma FetchStudentsSingle(p: Json)
    requires p != Null
    ensures FetchStudents(Arr([p])) == if IsStudentRecord(p) then [p] else []
  {
    FilterSingleton(p, IsStudentRecord);
  }

  /** Fetching a reply in two pieces lists the first piece's students ahead of the second's, so order is kept. */
  lemma {:induction false} FetchStudentsConcat(a: seq<Json>, b: seq<Json>)
    requires Null !in a + b
    ensures FetchStudents(Arr(a + b)) == FetchStudents(Arr(a)) + FetchStudents(Arr(b))
  {
    assert Null !in a && Null !in b by {
      assert forall x :: x in a ==> x in a + b;
      assert forall x :: x in b ==> x in a + b;
    }
    FilterConcat(a, b, IsStudentRecord);
  }

  /** Fetching again from a list that was already fetched changes nothing. */
  lemma FetchStudentsIdempotent(data: Json)
    ensures FetchStudents(Arr(FetchStudents(data))) == FetchStudents(data)
  {
    var all := ArrayItems(data);
    if Null !in all {
      FilterIdempotent(all, IsStudentRecord);
    }
  }

  /**
   * `addStudent`'s payload: the submitted record with `extra.role` forced to
   * 'aluno'; every other key of the record and of its extra map is kept.
   */
  function AddStudentPayload(student: Fields): (r: Fields)
    ensures forall k :: k != "extra" ==> Lookup(r, k) == Lookup(student, k)
    ensures Lookup(r, "extra").Some? && Lookup(r, "extra").value.Obj?
    ensures Lookup(FieldsOf(Lookup(r, "extra").value), "role") == Some(Str("aluno"))
    ensures forall k :: k != "role" ==>
      Lookup(FieldsOf(Lookup(r, "extra").value), k) == Lookup(FieldsOf(ExtraOf(Obj(student))), k)
  {
    var extra := Set(FieldsOf(ExtraOf(Obj(student))), "role", Str("aluno"));
    Set(student, "extra", Obj(extra))
  }

  /** A student added through the form is never taken for a professor by the next fetch. */
  lemma AddedStudentIsFetched(student: Fields, before: seq<Json>)
    requires Null !in before
    ensures Obj(AddStudentPayload(student)) in FetchStudents(Arr(before + [Obj(AddStudentPayload(student))]))
  {
    var p := Obj(AddStudentPayload(student));
    assert IsStudentRecord(p);
    assert p in before + [p];
  }

  /** `s._id === studentId`, ids being JSON scalars. */
  predicate HasId(s: Json, id: Json) {
    Get(s, "_id") == Some(id)
  }

  /** `students.find(s => s._id === studentId)` as an index: the first match. */
  function FindStudent(students: seq<Json>, id: Json): (r: Option<nat>)
    ensures r.None? <==> forall i :: 0 <= i < |students| ==> !HasId(students[i], id)
    ensures r.Some? ==> r.value < |students| && HasId(students[r.value], id)
    ensures r.Some? ==> forall i :: 0 <= i < r.value ==> !HasId(students[i], id)
  {
    if |students| == 0 then None
    else if HasId(students[0], id) then Some(0)
    else
      match FindStudent(students[1..], id)
      case None => None
      case Some(j) => Some(j + 1)
  }

  /** `{ ...(student.extra || {}), ...extraData }` */
  function MergedExtra(student: Json, extraData: Fields): (r: Fields)
    ensures forall k :: Lookup(extraData, k).Some? ==> Lookup(r, k) == Lookup(extraData, k)
    ensures forall k :: Lookup(extraData, k).None? ==> Lookup(r, k) == Lookup(FieldsOf(ExtraOf(student)), k)
  {
    Spread(FieldsOf(ExtraOf(student)), extraData)
  }

  /** `{ ...s, extra: newExtra }` */
  function WithExtra(s: Json, extra: Fields): (r: Json)
    ensures r.Obj?
    ensures Get(r, "extra") == Some(Obj(extra))
    ensures forall k :: k != "extra" ==> Get(r, k) == Get(s, k)
  {
    Obj(Set(FieldsOf(s), "extra", Obj(extra)))
  }

  /**
   * `updateStudentData`: an unknown id, or an update the server rejects
   * (`accepted` false), is an error and the list stays as it was. Otherwise
   * every student carrying the id gets the first match's extra map
   * overridden by `extraData`; the other students are unchanged.
   */
  function UpdateStudentData(students: seq<Json>, id: Json, extraData: Fields, accepted: bool): (r: Result<seq<Json>>)
    ensures r.Err? <==> FindStudent(students, id).None? || !accepted
    ensures r.Ok? ==> |r.value| == |students|
    ensures r.Ok? ==> forall i :: 0 <= i < |students| && !HasId(students[i], id) ==> r.value[i] == students[i]
    ensures r.Ok? ==> forall i, k :: 0 <= i < |students| && HasId(students[i], id) && k != "extra" ==>
      Get(r.value[i], k) == Get(students[i], k)
    ensures r.Ok? ==> forall i, k :: 0 <= i < |students| && HasId(students[i], id) ==>
      Get(r.value[i], "extra").Some? &&
      Lookup(FieldsOf(Get(r.value[i], "extra").value), k)
        == (if Lookup(extraData, k).Some? then Lookup(extraData, k)
            else Lookup(FieldsOf(ExtraOf(students[FindStudent(students, id).value])), k))
  {
    match FindStudent(students, id)
    case None => Err("Aluno não encontrado")
    case Some(i) =>
      if !accepted then Err("updatePlayer failed")
      else
        var newExtra := MergedExtra(students[i], extraData);
        Ok(seq(|students|, j requires 0 <= j < |students| =>
          if HasId(students[j], id) then WithExtra(students[j], newExtra) else students[j]))
  }

  /**
   * Saving the grade editor merges over the stored record, so a grade whose
   * inputs were all cleared keeps its stored value rather than being removed.
   */
  lemma ClearedGradeSurvivesSave(students: seq<Json>, id: Json, editFreq: Json,
                                 provas: seq<GradeEdit>, trabalhos: seq<GradeEdit>, k: string)
    requires FindStudent(students, id).Some?
    requires k != "frequencia" && AllBlank(provas + trabalhos, k)
    ensures var i := FindStudent(students, id).value;
      var r := UpdateStudentData(students, id, HandleSave(editFreq, provas, trabalhos), true);
      r.Ok? && Get(ExtraOf(r.value[i]), k) == Get(ExtraOf(students[i]), k)
  {
  }

  // ------------------------------------------------------------ saved plans

  /** `p.userId === userId` */
  predicate OwnedBy(p: Json, userId: string) {
    Get(p, "userId") == Some(Str(userId))
  }

  /** `p.userId && p.userId !== userId`: a plan that visibly belongs to someone else. */
  predicate Foreign(p: Json, userId: string) {
    Present(Get(p, "userId")) && !OwnedBy(p, userId)
  }

  /** The per-user reply leaves nothing to list: it is empty, or it holds another user's plan and none of the caller's. */
  predicate FallsBack(userId: string, data: Json) {
    || ArrayItems(data) == []
    || ((exists p :: p in ArrayItems(data) && Foreign(p, userId)) && forall p :: p in ArrayItems(data) ==> !OwnedBy(p, userId))
  }

  /**
   * The plans `listSavedPlans` keeps before sorting. The per-user reply is
   * filtered to the caller when it holds another user's plan; when that
   * leaves nothing, the all-plans reply is filtered instead. A null element
   * in a list that is inspected makes the code throw and answer `None`.
   */
  function ChosenPlans(userId: string, data: Json, allData: Json): (r: Option<seq<Json>>)
    ensures r.Some? ==> Null !in r.value
    ensures r.Some? && (exists p :: p in ArrayItems(data) && Foreign(p, userId)) ==>
      forall p :: p in r.value ==> OwnedBy(p, userId)
    ensures r.Some? ==> forall p :: p in r.value ==>
      p in ArrayItems(data) || (p in ArrayItems(allData) && OwnedBy(p, userId))
    ensures r.Some? && Null !in ArrayItems(data) && (forall p :: p in ArrayItems(data) ==> !Foreign(p, userId)) ==>
      ArrayItems(data) != [] ==> r.value == ArrayItems(data)
    ensures r.None? <==> Null in ArrayItems(data) || (FallsBack(userId, data) && Null in ArrayItems(allData))
    ensures r.Some? && (exists p :: p in ArrayItems(data) && OwnedBy(p, userId)) ==>
      forall p :: p in ArrayItems(data) && OwnedBy(p, userId) ==> p in r.value
    ensures r.Some? && FallsBack(userId, data) ==>
      forall p :: p in r.value <==> p in ArrayItems(allData) && OwnedBy(p, userId)
    ensures r.Some? && (exists p :: p in ArrayItems(data) && Foreign(p, userId)) && !FallsBack(userId, data) ==>
      forall p :: p in ArrayItems(data) ==>
        multiset(r.value)[p] == if OwnedBy(p, userId) then multiset(ArrayItems(data))[p] else 0
    ensures r.Some? && FallsBack(userId, data) ==>
      forall p :: p in ArrayItems(allData) ==>
        multiset(r.value)[p] == if OwnedBy(p, userId) then multiset(ArrayItems(allData))[p] else 0
  {
    var plans := ArrayItems(data);
    var owned := p => OwnedBy(p, userId);
    if Null in plans then None
    else
      FilterCount(plans, owned);
      var mine := if exists p :: p in plans && Foreign(p, userId) then Filter(plans, owned) else plans;
      if |mine| > 0 then
        assert mine[0] in mine;
        Some(mine)
      else
        var all := ArrayItems(allData);
        if Null in all then None
        else
          FilterCount(all, owned);
          Some(Filter(all, owned))
  }

  /** `a.updatedAt || a.createdAt || 0`: the value the plan's date is read from. */
  function Stamp(p: Json): Json {
    if Present(Get(p, "updatedAt")) then Get(p, "updatedAt").value
    else if Present(Get(p, "createdAt")) then Get(p, "createdAt").value
    else Num(0.0)
  }

  /**
   * `listSavedPlans`: the chosen plans, newest first by the time `time`
   * assigns to their stamp (standing for `new Date(...)`); a failure
   * answers the empty list.
   */
  function ListSavedPlans(userId: string, data: Json, allData: Json, time: Json -> int): (r: seq<Json>)
    ensures SortedDesc(r, p => time(Stamp(p)))
    ensures ChosenPlans(userId, data, allData).Some? ==> multiset(r) == multiset(ChosenPlans(userId, data, allData).value)
    ensures ChosenPlans(userId, data, allData).None? ==> r == []
  {
    match ChosenPlans(userId, data, allData)
    case None => []
    case Some(plans) => SortDesc(plans, p => time(Stamp(p)))
  }

  /** A listed plan is the caller's unless the per-user reply held only plans without a foreign owner. */
  lemma ListedPlansOwned(userId: string, data: Json, allData: Json, time: Json -> int, p: Json)
    requires exists q :: q in ArrayItems(data) && Foreign(q, userId)
    requires p in ListSavedPlans(userId, data, allData, time)
    ensures OwnedBy(p, userId)
  {
    var r := ListSavedPlans(userId, data, allData, time);
    assert p in multiset(r);
  }
}
