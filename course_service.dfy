/**
 * The in-memory course store: an ordered collection of course records with create, list,
 * fetch-by-id, partial update and delete, each lookup failing with "not found" when no
 * record has the requested id.
 */
module Courses {
  import opened Wrappers
  import opened CourseDto

  /** A stored course: the generated id followed by the fields of the create payload. */
  datatype Course = Course(id: string, title: string, level: CourseLevel, durationInWeeks: int)

  /** The not-found condition, carrying the id that was looked up. */
  datatype NotFound = NotFound(id: string)

  predicate HasId(s: seq<Course>, id: string)
  {
    exists i :: 0 <= i < |s| && s[i].id == id
  }

  predicate DistinctIds(s: seq<Course>)
  {
    forall i, j :: 0 <= i < j < |s| ==> s[i].id != s[j].id
  }

  /** The position of the first record with the given id, as `Array.prototype.find` meets it. */
  function FirstIndex(s: seq<Course>, id: string): (r: Option<nat>)
    ensures r.None? <==> !HasId(s, id)
    ensures r.Some? ==> r.value < |s| && s[r.value].id == id
    ensures r.Some? ==> forall j :: 0 <= j < r.value ==> s[j].id != id
    decreases |s|
  {
    if |s| == 0 then None
    else if s[0].id == id then Some(0)
    else
      match FirstIndex(s[1..], id)
      case None => None
      case Some(k) => Some(k + 1)
  }

  /** The lookup behind every operation that takes an id: the first match, or not found. */
  function Find(s: seq<Course>, id: string): (r: Result<Course, NotFound>)
    ensures r.Success? <==> HasId(s, id)
    ensures r.Success? ==> r.value.id == id
    ensures r.Success? ==> exists k :: 0 <= k < |s| && s[k] == r.value && forall j :: 0 <= j < k ==> s[j].id != id
    ensures r.Failure? ==> r.error == NotFound(id)
  {
    match FirstIndex(s, id)
    case None => Failure(NotFound(id))
    case Some(k) => Success(s[k])
  }

  /** The records whose id differs from `id`, in their original order (the filter behind delete). */
  function Without(s: seq<Course>, id: string): (r: seq<Course>)
    ensures |r| <= |s|
    ensures !HasId(r, id)
    decreases |s|
  {
    if |s| == 0 then []
    else if s[0].id == id then Without(s[1..], id)
    else [s[0]] + Without(s[1..], id)
  }

  /** The record after a partial update: supplied fields overwritten, the rest kept. */
  function Merged(c: Course, patch: UpdateCourseDto): (r: Course)
    ensures r.id == c.id
    ensures patch.title.Some? ==> r.title == patch.title.value
    ensures patch.title.None? ==> r.title == c.title
    ensures patch.level.Some? ==> r.level == patch.level.value
    ensures patch.level.None? ==> r.level == c.level
    ensures patch.durationInWeeks.Some? ==> r.durationInWeeks == patch.durationInWeeks.value
    ensures patch.durationInWeeks.None? ==> r.durationInWeeks == c.durationInWeeks
  {
    Course(c.id,
           if patch.title.Some? then patch.title.value else c.title,
           if patch.level.Some? then patch.level.value else c.level,
           if patch.durationInWeeks.Some? then patch.durationInWeeks.value else c.durationInWeeks)
  }

  /** A stored course whose fields meet the payload constraints. */
  predicate CourseWellFormed(c: Course)
  {
    WellFormed(CreateCourseDto(c.title, c.level, c.durationInWeeks))
  }

  /** Every held course meets the payload constraints. */
  predicate AllWellFormed(s: seq<Course>)
  {
    forall i :: 0 <= i < |s| ==> CourseWellFormed(s[i])
  }

  /** The record `create` builds from a DTO and a generated id. */
  function NewCourse(id: string, dto: CreateCourseDto): (c: Course)
    ensures c.id == id
    ensures CreateCourseDto(c.title, c.level, c.durationInWeeks) == dto
    ensures WellFormed(dto) ==> CourseWellFormed(c)
  {
    Course(id, dto.title, dto.level, dto.durationInWeeks)
  }

  // ---------------------------------------------------------------------------------
  // Properties of the specification functions
  // ---------------------------------------------------------------------------------

  /** A freshly appended record is what a lookup of its id finds. */
  lemma {:induction false} FindAppended(s: seq<Course>, c: Course)
    requires !HasId(s, c.id)
    ensures Find(s + [c], c.id) == Success(c)
  {
    assert (s + [c])[|s|] == c;
    forall j | 0 <= j < |s| ensures (s + [c])[j].id != c.id {
      assert (s + [c])[j] == s[j];
    }
  }

  /** Appending a record leaves the lookup of every other id as it was. */
  lemma {:induction false} FindAppendOther(s: seq<Course>, c: Course, id: string)
    requires id != c.id
    ensures Find(s + [c], id) == Find(s, id)
    decreases |s|
  {
    if |s| == 0 {
      assert s + [c] == [c];
    } else {
      assert (s + [c])[0] == s[0];
      assert (s + [c])[1..] == s[1..] + [c];
      FindAppendOther(s[1..], c, id);
      FirstIndexTail(s + [c], id);
      FirstIndexTail(s, id);
    }
  }

  /** How the first index of a non-empty sequence relates to that of its tail. */
  lemma FirstIndexTail(s: seq<Course>, id: string)
    requires |s| > 0
    ensures s[0].id == id ==> FirstIndex(s, id) == Some(0)
    ensures s[0].id != id ==> FirstIndex(s, id) == match FirstIndex(s[1..], id)
                                                   case None => None
                                                   case Some(k) => Some(k + 1)
  {
  }

  /** With distinct ids, a record's position is the first index of its id. */
  lemma DistinctFirstIndex(s: seq<Course>, k: nat)
    requires DistinctIds(s) && k < |s|
    ensures FirstIndex(s, s[k].id) == Some(k)
  {
    assert HasId(s, s[k].id);
  }

  /** Filtering distributes over concatenation, so it keeps the relative order of records. */
  lemma {:induction false} WithoutConcat(a: seq<Course>, b: seq<Course>, id: string)
    ensures Without(a + b, id) == Without(a, id) + Without(b, id)
    decreases |a|
  {
    if |a| == 0 {
      assert a + b == b;
    } else {
      assert (a + b)[0] == a[0];
      assert (a + b)[1..] == a[1..] + b;
      WithoutConcat(a[1..], b, id);
    }
  }

  /** Filtering keeps exactly the records whose id differs from the removed one. */
  lemma {:induction false} WithoutMembers(s: seq<Course>, id: string, c: Course)
    ensures c in Without(s, id) <==> c in s && c.id != id
    decreases |s|
  {
    if |s| > 0 {
      WithoutMembers(s[1..], id, c);
      assert s == [s[0]] + s[1..];
    }
  }

  /** Filtering an id nobody holds changes nothing. */
  lemma {:induction false} WithoutAbsent(s: seq<Course>, id: string)
    requires !HasId(s, id)
    ensures Without(s, id) == s
    decreases |s|
  {
    if |s| > 0 {
      assert !HasId(s[1..], id) by {
        forall i | 0 <= i < |s[1..]| ensures s[1..][i].id != id {
          assert s[1..][i] == s[i + 1];
        }
      }
      WithoutAbsent(s[1..], id);
    }
  }

  /** Filtering removes a record whose id no other record holds, and only that one. */
  lemma WithoutSplit(a: seq<Course>, x: Course, b: seq<Course>)
    requires !HasId(a, x.id) && !HasId(b, x.id)
    ensures Without(a + [x] + b, x.id) == a + b
  {
    var id := x.id;
    assert [x][1..] == [];
    assert Without([x], id) == [];
    WithoutConcat(a, [x], id);
    WithoutAbsent(a, id);
    assert Without(a + [x], id) == a;
    WithoutConcat(a + [x], b, id);
    WithoutAbsent(b, id);
  }

  /** With distinct ids, filtering the id at position `k` removes exactly that record. */
  lemma WithoutDistinct(s: seq<Course>, k: nat)
    requires DistinctIds(s) && k < |s|
    ensures Without(s, s[k].id) == s[..k] + s[k + 1..]
  {
    var a, b := s[..k], s[k + 1..];
    assert s == a + [s[k]] + b;
    assert !HasId(a, s[k].id) by {
      forall i | 0 <= i < |a| ensures a[i].id != s[k].id { assert a[i] == s[i]; }
    }
    assert !HasId(b, s[k].id) by {
      forall i | 0 <= i < |b| ensures b[i].id != s[k].id { assert b[i] == s[k + 1 + i]; }
    }
    WithoutSplit(a, s[k], b);
  }

  /** Removing one position keeps the remaining ids distinct. */
  lemma DistinctWithoutPosition(s: seq<Course>, k: nat)
    requires DistinctIds(s) && k < |s|
    ensures DistinctIds(s[..k] + s[k + 1..])
  {
    var r := s[..k] + s[k + 1..];
    forall i, j | 0 <= i < j < |r| ensures r[i].id != r[j].id {
      var i' := if i < k then i else i + 1;
      var j' := if j < k then j else j + 1;
      assert r[i] == s[i'] && r[j] == s[j'];
    }
  }

  /** Cutting one record out keeps every remaining record well formed. */
  lemma WellFormedWithoutPosition(s: seq<Course>, k: nat)
    requires k < |s|
    ensures AllWellFormed(s) ==> AllWellFormed(s[..k] + s[k + 1..])
  {
    var r := s[..k] + s[k + 1..];
    if AllWellFormed(s) {
      forall i | 0 <= i < |r| ensures CourseWellFormed(r[i]) {
        assert r[i] == s[if i < k then i else i + 1];
      }
    }
  }

  /** Appending a record with a new id keeps the ids distinct. */
  lemma DistinctAppend(s: seq<Course>, c: Course)
    requires DistinctIds(s) && !HasId(s, c.id)
    ensures DistinctIds(s + [c])
  {
    var r := s + [c];
    forall i, j | 0 <= i < j < |r| ensures r[i].id != r[j].id {
      assert r[i] == s[i];
      if j < |s| { assert r[j] == s[j]; }
    }
  }

  /** Applying the same patch twice is the same as applying it once; the empty patch changes nothing. */
  lemma MergedIdempotent(c: Course, patch: UpdateCourseDto)
    ensures Merged(Merged(c, patch), patch) == Merged(c, patch)
    ensures Merged(c, UpdateCourseDto(None, None, None)) == c
  {
  }

  /** A validated patch applied to a well-formed record yields a well-formed record. */
  lemma MergedWellFormed(c: Course, patch: UpdateCourseDto)
    requires CourseWellFormed(c) && WellFormedPatch(patch)
    ensures CourseWellFormed(Merged(c, patch))
  {
  }

  /** Replacing a record by one with the same id keeps the ids distinct. */
  lemma DistinctReplace(s: seq<Course>, k: nat, c: Course)
    requires DistinctIds(s) && k < |s| && c.id == s[k].id
    ensures DistinctIds(s[k := c])
  {
    var r := s[k := c];
    forall i, j | 0 <= i < j < |r| ensures r[i].id != r[j].id {
      assert r[i].id == s[i].id && r[j].id == s[j].id;
    }
  }

  // ---------------------------------------------------------------------------------
  // The store
  // ---------------------------------------------------------------------------------

  class CourseService {
    var courses: seq<Course>

    /** The store's invariant: no two held records share an id. */
    ghost predicate Valid()
      reads this
    {
      DistinctIds(courses)
    }

    /** A new store holds no courses. */
    constructor ()
      ensures Valid()
      ensures courses == []
    {
      courses := [];
    }

    /**
     * Appends a record built from `dto` and the generated id `newId`; the id generator is
     * not part of the model, and `newId` stands for its result, an id no held record has.
     */
    method Create(dto: CreateCourseDto, newId: string) returns (c: Course)
      requires Valid()
      requires !HasId(courses, newId)
      modifies this
      ensures Valid()
      ensures c.id == newId && CreateCourseDto(c.title, c.level, c.durationInWeeks) == dto
      ensures courses == old(courses) + [c]
      ensures Find(courses, newId) == Success(c)
      ensures AllWellFormed(old(courses)) && WellFormed(dto) ==> AllWellFormed(courses)
    {
      c := NewCourse(newId, dto);
      DistinctAppend(courses, c);
      FindAppended(courses, c);
      courses := courses + [c];
    }

    /** Every held record, in insertion order. */
    method FindAll() returns (r: seq<Course>)
      ensures r == courses
    {
      r := courses;
    }

    /** The first record with the given id, or not found; the store is left as it was. */
    method FindOne(id: string) returns (r: Result<Course, NotFound>)
      ensures r.Success? <==> HasId(courses, id)
      ensures r.Success? ==> r.value.id == id && r.value == courses[FirstIndex(courses, id).value]
      ensures r.Failure? ==> r.error == NotFound(id)
    {
      r := Find(courses, id);
    }

    /**
     * Overwrites, in the first record with the given id, the fields the patch supplies,
     * and returns the merged record; fails with not found, changing nothing, otherwise.
     */
    method Update(id: string, patch: UpdateCourseDto) returns (r: Result<Course, NotFound>)
      requires Valid()
      modifies this
      ensures Valid()
      ensures !HasId(old(courses), id) ==> r == Failure(NotFound(id)) && courses == old(courses)
      ensures HasId(old(courses), id) ==>
                var k := FirstIndex(old(courses), id).value;
                r == Success(Merged(old(courses)[k], patch)) && courses == old(courses)[k := r.value]
      ensures AllWellFormed(old(courses)) && WellFormedPatch(patch) ==> AllWellFormed(courses)
    {
      var found := FirstIndex(courses, id);
      if found.None? {
        r := Failure(NotFound(id));
        return;
      }
      var k := found.value;
      var course := courses[k];
      if patch.title.Some? {
        course := course.(title := patch.title.value);
      }
      if patch.level.Some? {
        course := course.(level := patch.level.value);
      }
      if patch.durationInWeeks.Some? {
        course := course.(durationInWeeks := patch.durationInWeeks.value);
      }
      DistinctReplace(courses, k, course);
      if AllWellFormed(courses) && WellFormedPatch(patch) {
        MergedWellFormed(courses[k], patch);
      }
      courses := courses[k := course];
      r := Success(course);
    }

    /**
     * Deletes every record with the given id and returns the record as it was; fails with
     * not found, changing nothing, when no record has the id.
     */
    method Remove(id: string) returns (r: Result<Course, NotFound>)
      requires Valid()
      modifies this
      ensures Valid()
      ensures r == Find(old(courses), id)
      ensures r.Failure? ==> courses == old(courses)
      ensures r.Success? ==> courses == Without(old(courses), id)
      ensures r.Success? ==> |courses| == |old(courses)| - 1 && !HasId(courses, id)
      ensures r.Success? ==> exists k :: 0 <= k < |old(courses)| && courses == old(courses)[..k] + old(courses)[k + 1..]
      ensures AllWellFormed(old(courses)) ==> AllWellFormed(courses)
    {
      r := FindOne(id);
      if r.Failure? {
        return;
      }
      var k := FirstIndex(courses, id).value;
      WithoutDistinct(courses, k);
      DistinctWithoutPosition(courses, k);
      WellFormedWithoutPosition(courses, k);
      courses := Without(courses, id);
    }
  }

  /** The walk-through of the store: create, list, update one field, remove, list again. */
  method Walkthrough(newId: string)
  {
    var store := new CourseService();
    var all := store.FindAll();
    assert all == [];
    var dto := CreateCourseDto("Intro to HTML", Beginner, 4);
    var created := store.Create(dto, newId);
    assert created == Course(newId, "Intro to HTML", Beginner, 4);
    all := store.FindAll();
    assert all == [created];
    var found := store.FindOne(newId);
    assert found == Success(created);
    var updated := store.Update(newId, UpdateCourseDto(Some("Intro to HTML5"), None, None));
    assert updated == Success(Course(newId, "Intro to HTML5", Beginner, 4));
    var removed := store.Remove(newId);
    assert removed == Success(Course(newId, "Intro to HTML5", Beginner, 4));
    all := store.FindAll();
    assert all == [];
    var missing := store.FindOne(newId);
    assert missing == Failure(NotFound(newId));
  }
}
