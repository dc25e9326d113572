# Course store

A Dafny model of the core of a small course-catalogue HTTP service: the in-memory
`CourseService`, which holds an ordered list of course records and offers create, list,
fetch-by-id, partial update and delete, and the validation rules and level enumeration of
the course payloads (`CreateCourseDto`, `CourseLevel`).

- `wrappers.dfy` (module `Wrappers`): `Option` (an absent field) and `Result` (an operation
  that fails).
- `course_dto.dfy` (module `CourseDto`): the three levels with their string values and the
  lookup by string; each validation decorator (`@IsString`, `@IsNotEmpty`, `@IsEnum`,
  `@IsInt`, `@Min`) as a predicate on a loosely typed body value; validation of create and
  update bodies into typed DTOs, reporting the exact set of failing fields.
- `course_service.dfy` (module `Courses`): the `Course` record, the lookup (`FirstIndex`,
  `Find`: first match, as `Array.prototype.find`), the filter behind delete (`Without`), the
  partial-update merge (`Merged`), and the class `CourseService` whose field `courses: seq<Course>`
  the methods reassign. `Valid()` is the store invariant (ids pairwise distinct); the
  constructor establishes it and every mutating method keeps it. `Walkthrough` steps
  through the create / list / fetch / update / remove scenario; each of its assertions is
  proved from the method contracts alone. `AllWellFormed` states that every held course
  has a non-empty title and a duration of at least one week; create, update and remove keep
  it whenever their input is a validated DTO or patch.

Modelling decisions:

- The id generator (`randomUUID`) is outside the model: `Create` takes the generated id as
  the parameter `newId` and requires that no held record has it. This is an assumption: a
  random version-4 UUID (122 random bits) makes a clash overwhelmingly unlikely, not
  impossible.
- Operations are synchronous; the `async`/`Promise` wrapping and the dependency injection
  are not modelled.
- The store holds values, not object references. `update` in the source mutates the object
  that `find` returned, which is the first record with the id; the model writes the merged
  record back at that position. `findAll` returns the list by value.
- A request body value is a string, a finite number (a `real`), `null`, or anything else.
  A field missing from the body is `None`; every create constraint rejects a missing field.
- The update payload class is not part of this model. Its rule is taken to be: each of the
  three fields may be absent, and a supplied field must meet the create constraint for it.
- Create and update bodies share one shape, `Payload`: three optional values.

## Model

| member | source | states |
|---|---|---|
| `CourseDto.LevelName` | src/course/dto/create-course.dto.ts:4-8 | the string value of every level is one of 'Beginner', 'Intermediate' and 'Advanced' |
| `CourseDto.ParseLevel` | src/course/dto/create-course.dto.ts:4-8 | a string parses to a level only if it is that level's string value; it fails exactly when no level has that string value |
| `CourseDto.ParseLevelName` | src/course/dto/create-course.dto.ts:4-8 | parsing the string value of any level gives back that level |
| `CourseDto.LevelNameInjective` | src/course/dto/create-course.dto.ts:4-8 | two levels with the same string value are the same level |
| `CourseDto.ThreeLevels` | src/course/dto/create-course.dto.ts:4-8 | every level is Beginner, Intermediate or Advanced, and parsing succeeds exactly for the strings 'Beginner', 'Intermediate' and 'Advanced' |
| `CourseDto.TitleRule` | src/course/dto/create-course.dto.ts:15-16 | `ValidTitle` (`@IsString` with `@IsNotEmpty`) holds iff the title is present and a non-empty string |
| `CourseDto.LevelRule` | src/course/dto/create-course.dto.ts:23 | `ValidLevel` (`@IsEnum(CourseLevel)`) holds iff the level is present and is the string value of some level |
| `CourseDto.DurationRule` | src/course/dto/create-course.dto.ts:30-31 | `ValidDuration` (`@IsInt` with `@Min(1)`) holds iff the duration is present and a number equal to an integer of at least 1 |
| `CourseDto.CreatePayloadFields` | src/course/dto/create-course.dto.ts:10-33 | `ValidCreatePayload` holds iff each of the three fields meets its own constraint |
| `CourseDto.UpdatePayloadFields` | src/course/dto/create-course.dto.ts:10-33 | `ValidUpdatePayload` holds iff each of the three fields is absent or meets its own constraint |
| `CourseDto.Validate` | src/course/dto/create-course.dto.ts:10-33 | a create body validates iff the title is a non-empty string, the level is one of the enum's strings and the duration is an integer of at least 1; the DTO produced is well formed and carries exactly the body's values; on failure the error is the non-empty set of exactly the fields whose constraint fails |
| `CourseDto.ValidateExactly` | src/course/dto/create-course.dto.ts:10-33 | validation yields a DTO iff the DTO is well formed (non-empty title, duration at least 1) and the body is that DTO's encoding: the encode/validate round trip in both directions |
| `CourseDto.ValidateUpdate` | src/course/dto/create-course.dto.ts:10-33 | an update body validates iff every supplied field meets its create constraint; omitted fields stay omitted in the patch, supplied ones carry the body's values; on failure the error is exactly the set of failing supplied fields |
| `CourseDto.ValidateUpdateExactly` | src/course/dto/create-course.dto.ts:10-33 | update validation yields a patch iff its supplied fields are well formed and the body is the patch's encoding |
| `CourseDto.CreateValidIsUpdateValid` | src/course/dto/create-course.dto.ts:10-33 | a valid create body is also a valid update body that supplies every field |
| `Courses.FirstIndex` | src/course/course.service.ts:26 | the position found holds the id and no earlier record does; there is none iff no record holds the id |
| `Courses.Find` | src/course/course.service.ts:25-32 | the lookup succeeds iff some record holds the id, returning the first such record; otherwise it fails with not found for that id |
| `Courses.NewCourse` | src/course/course.service.ts:12-15 | the created record has the generated id and the DTO's title, level and duration; a well-formed DTO makes a well-formed record |
| `Courses.Without` | src/course/course.service.ts:60 | the filtered list is no longer than the original and holds no record with the removed id |
| `Courses.WithoutMembers` | src/course/course.service.ts:60 | a record is kept by the filter iff it was held and its id differs from the removed one |
| `Courses.WithoutConcat` | src/course/course.service.ts:60 | filtering distributes over concatenation, so the kept records stay in their relative order |
| `Courses.WithoutAbsent` | src/course/course.service.ts:60 | filtering an id that no record holds leaves the list unchanged |
| `Courses.WithoutSplit` | src/course/course.service.ts:60 | filtering the id of a record that no other record shares removes exactly that record |
| `Courses.WithoutDistinct` | src/course/course.service.ts:57-63 | with distinct ids, removing the id held at position k yields the list with exactly position k cut out |
| `Courses.FindAppended` | src/course/course.service.ts:11-32 | after appending a record with a new id, looking that id up returns the appended record |
| `Courses.FindAppendOther` | src/course/course.service.ts:11-19 | appending a record leaves the lookup of every other id unchanged |
| `Courses.DistinctAppend` | src/course/course.service.ts:13-17 | appending a record with an id no record holds keeps the ids distinct |
| `Courses.DistinctReplace` | src/course/course.service.ts:39-54 | replacing a record by one with the same id keeps the ids distinct |
| `Courses.DistinctWithoutPosition` | src/course/course.service.ts:60 | cutting one record out keeps the remaining ids distinct |
| `Courses.WellFormedWithoutPosition` | src/course/course.service.ts:60 | cutting one record out of a well-formed list leaves a well-formed list |
| `Courses.DistinctFirstIndex` | src/course/course.service.ts:26 | with distinct ids, the first index of a record's id is that record's position |
| `Courses.Merged` | src/course/course.service.ts:42-52 | the merged record keeps the id, takes each supplied field from the patch and keeps each omitted field |
| `Courses.MergedIdempotent` | src/course/course.service.ts:42-52 | applying a patch twice equals applying it once, and the empty patch changes nothing |
| `Courses.MergedWellFormed` | src/course/course.service.ts:42-52 | a validated patch applied to a well-formed record gives a well-formed record |
| `Courses.CourseService.constructor` | src/course/course.service.ts:9 | a new store is empty and satisfies the invariant |
| `Courses.CourseService.Create` | src/course/course.service.ts:11-19 | the store becomes the old list with the new record appended at the end; the record has the given id and the DTO's fields; a lookup of the new id then returns it; ids stay distinct; a well-formed store stays well formed when the DTO is |
| `Courses.CourseService.FindAll` | src/course/course.service.ts:21-23 | returns every held record in insertion order |
| `Courses.CourseService.FindOne` | src/course/course.service.ts:25-33 | succeeds iff some record has the id, returning the first one; fails with not found for that id otherwise; the store is not changed |
| `Courses.CourseService.Update` | src/course/course.service.ts:35-55 | with no record of that id: fails with not found and changes nothing; otherwise only the first matching record changes, to the merge of the patch into it, which is returned; length, order and all other records are kept; ids stay distinct; a well-formed store stays well formed when the patch is |
| `Courses.CourseService.Remove` | src/course/course.service.ts:57-63 | returns the record as it was before removal, or not found; on not found nothing changes; otherwise the store is the filtered old list, one shorter, equal to the old list with one position cut out, and holds the id no more; ids stay distinct and a well-formed store stays well formed |

## Left out

- The HTTP controller, routing, status codes and API documentation metadata: the controller
  forwards each call to the store unchanged and has no logic of its own.
- The id generator `randomUUID`: a foreign randomness source, replaced by the `newId`
  parameter of `Create` and the precondition that it is not held.
- The validation library itself: only the constraints its decorators declare are modelled,
  not its options (whitelisting, transformation, unknown properties) or its error messages.
- `Create`: properties of the body beyond the three fields are not modelled. The object
  spread at course.service.ts:14 comes after the generated `id`, so a body carrying its own
  `id` property would replace the generated id unless validation strips unknown
  properties. `Create`'s `c.id == newId` and the distinct-ids invariant hold only for bodies
  without such a property.
- Floating point: numbers are modelled as reals, and `NaN` and the infinities as `Other`.
- Object identity and aliasing: `findAll` returning the live array and `update` mutating a
  shared object are modelled by value.
- The update payload class is not part of this model; how its optional-field marker treats
  `null` is not modelled (a supplied `null` is checked against the create constraint).
- Concurrency: operations run one at a time to completion.
