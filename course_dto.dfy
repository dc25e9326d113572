/**
 * The course payloads: the `CourseLevel` enumeration and the field constraints that the
 * validation decorators of `CreateCourseDto` declare.
 *
 * A payload arrives as loosely typed values (a JSON body); validation either turns it into
 * a typed DTO or reports the set of fields whose constraints fail.
 */
module CourseDto {
  import opened Wrappers

  /** The three levels of a course. */
  datatype CourseLevel = Beginner | Intermediate | Advanced

  /** The string value of each enum member. */
  function LevelName(l: CourseLevel): (s: string)
    ensures s in {"Beginner", "Intermediate", "Advanced"}
  {
    match l
    case Beginner => "Beginner"
    case Intermediate => "Intermediate"
    case Advanced => "Advanced"
  }

  /** Looks a level up by its exact string value. */
  function ParseLevel(s: string): (r: Option<CourseLevel>)
    ensures r.Some? ==> LevelName(r.value) == s
    ensures r.None? ==> forall l :: LevelName(l) != s
  {
    if s == "Beginner" then Some(Beginner)
    else if s == "Intermediate" then Some(Intermediate)
    else if s == "Advanced" then Some(Advanced)
    else None
  }

  /** Every level survives the trip through its string value. */
  lemma ParseLevelName(l: CourseLevel)
    ensures ParseLevel(LevelName(l)) == Some(l)
  {
  }

  /** Distinct levels have distinct string values. */
  lemma LevelNameInjective(l: CourseLevel, m: CourseLevel)
    ensures LevelName(l) == LevelName(m) ==> l == m
  {
  }

  /** There are exactly three levels, and exactly three strings name one. */
  lemma ThreeLevels(l: CourseLevel, s: string)
    ensures l == Beginner || l == Intermediate || l == Advanced
    ensures ParseLevel(s).Some? <==> s == "Beginner" || s == "Intermediate" || s == "Advanced"
  {
  }

  /**
   * A value of a request body field: a string, a finite JavaScript number, `null`, or
   * anything else (booleans, objects, arrays, `NaN`, infinities).
   */
  datatype Value = Text(text: string) | Number(number: real) | Null | Other

  /** The fields of a course payload, as named in validation errors. */
  datatype Field = Title | Level | DurationInWeeks

  /** A request body for create or update, each field possibly absent. */
  datatype Payload = Payload(title: Option<Value>, level: Option<Value>, durationInWeeks: Option<Value>)

  /** A validated create payload. */
  datatype CreateCourseDto = CreateCourseDto(title: string, level: CourseLevel, durationInWeeks: int)

  /** `@IsString()`: the value is present and a string. */
  predicate IsString(v: Option<Value>)
  {
    v.Some? && v.value.Text?
  }

  /** `@IsNotEmpty()`: the value is present, not `null` and not the empty string. */
  predicate IsNotEmpty(v: Option<Value>)
  {
    v.Some? && v.value != Null && v.value != Text("")
  }

  /** `@IsEnum(CourseLevel)`: the value is one of the enum's string values. */
  predicate IsEnumLevel(v: Option<Value>)
  {
    v.Some? && v.value.Text? && ParseLevel(v.value.text).Some?
  }

  /** `@IsInt()`: the value is a number without a fractional part. */
  predicate IsInt(v: Option<Value>)
  {
    v.Some? && v.value.Number? && v.value.number.Floor as real == v.value.number
  }

  /** `@Min(bound)`: the value is a number no smaller than `bound`. */
  predicate Min(v: Option<Value>, bound: real)
  {
    v.Some? && v.value.Number? && v.value.number >= bound
  }

  predicate ValidTitle(v: Option<Value>)
  {
    IsString(v) && IsNotEmpty(v)
  }

  predicate ValidLevel(v: Option<Value>)
  {
    IsEnumLevel(v)
  }

  predicate ValidDuration(v: Option<Value>)
  {
    IsInt(v) && Min(v, 1.0)
  }

  /** The constraint on `f`, applied to the value `v` given for it. */
  predicate FieldValid(f: Field, v: Option<Value>)
  {
    match f
    case Title => ValidTitle(v)
    case Level => ValidLevel(v)
    case DurationInWeeks => ValidDuration(v)
  }

  /** The value a body gives for `f`. */
  function FieldOf(p: Payload, f: Field): Option<Value>
  {
    match f
    case Title => p.title
    case Level => p.level
    case DurationInWeeks => p.durationInWeeks
  }

  /** The title rule: a present, non-empty string. */
  lemma TitleRule(v: Option<Value>)
    ensures ValidTitle(v) <==> v.Some? && v.value.Text? && |v.value.text| > 0
  {
  }

  /** The level rule: a present string that is the string value of some level. */
  lemma LevelRule(v: Option<Value>)
    ensures ValidLevel(v) <==> exists l :: v == Some(Text(LevelName(l)))
  {
    if ValidLevel(v) {
      assert v == Some(Text(LevelName(ParseLevel(v.value.text).value)));
    }
  }

  /** The body value that carries a whole number of weeks. */
  function WeeksValue(n: int): Option<Value>
  {
    Some(Number(n as real))
  }

  /** The duration rule: a present number that is an integer of at least 1. */
  lemma DurationRule(v: Option<Value>)
    ensures ValidDuration(v) <==> exists n: int :: n >= 1 && v == WeeksValue(n)
  {
    if ValidDuration(v) {
      var n := v.value.number.Floor;
      assert n >= 1 && v == WeeksValue(n);
    }
  }

  /** A create body is valid when all three field constraints hold at once. */
  predicate ValidCreatePayload(p: Payload)
  {
    ValidTitle(p.title) && ValidLevel(p.level) && ValidDuration(p.durationInWeeks)
  }

  /** Validity of a create body is each field meeting its own constraint. */
  lemma CreatePayloadFields(p: Payload)
    ensures ValidCreatePayload(p) <==> forall f :: FieldValid(f, FieldOf(p, f))
  {
    if !ValidCreatePayload(p) {
      assert !FieldValid(Title, FieldOf(p, Title)) || !FieldValid(Level, FieldOf(p, Level))
        || !FieldValid(DurationInWeeks, FieldOf(p, DurationInWeeks));
    }
  }

  /** What every validated DTO satisfies: a non-empty title and at least one week. */
  predicate WellFormed(d: CreateCourseDto)
  {
    |d.title| > 0 && d.durationInWeeks >= 1
  }

  /** The request body that carries a DTO. */
  function ToPayload(d: CreateCourseDto): Payload
  {
    Payload(Some(Text(d.title)), Some(Text(LevelName(d.level))), WeeksValue(d.durationInWeeks))
  }

  /** The fields whose constraint is reported as failing. */
  function FailedFields(titleOk: bool, levelOk: bool, durationOk: bool): set<Field>
  {
    (if titleOk then {} else {Title}) +
    (if levelOk then {} else {Level}) +
    (if durationOk then {} else {DurationInWeeks})
  }

  /**
   * Validation of a create payload: a DTO carrying exactly the given values when all three
   * constraints hold, otherwise exactly the set of fields that break theirs.
   */
  function Validate(p: Payload): (r: Result<CreateCourseDto, set<Field>>)
    ensures r.Success? <==> ValidCreatePayload(p)
    ensures r.Success? ==> WellFormed(r.value) && ToPayload(r.value) == p
    ensures r.Failure? ==> r.error != {} && forall f :: f in r.error <==> !FieldValid(f, FieldOf(p, f))
  {
    var failed := FailedFields(ValidTitle(p.title), ValidLevel(p.level), ValidDuration(p.durationInWeeks));
    if failed == {} then
      Success(CreateCourseDto(p.title.value.text, ParseLevel(p.level.value.text).value,
                              p.durationInWeeks.value.number.Floor))
    else
      Failure(failed)
  }

  /** Validation accepts exactly the bodies of well-formed DTOs, and returns the DTO carried. */
  lemma {:induction false} ValidateExactly(p: Payload, d: CreateCourseDto)
    ensures Validate(p) == Success(d) <==> WellFormed(d) && p == ToPayload(d)
  {
    if WellFormed(d) && p == ToPayload(d) {
      ParseLevelName(d.level);
      assert (d.durationInWeeks as real).Floor == d.durationInWeeks;
    }
  }

  /** A validated partial update: `None` marks a field the caller did not supply. */
  datatype UpdateCourseDto = UpdateCourseDto(title: Option<string>, level: Option<CourseLevel>, durationInWeeks: Option<int>)

  /** An update field is acceptable when it is absent or meets the create constraint. */
  predicate OptionalFieldValid(f: Field, v: Option<Value>)
  {
    v.None? || FieldValid(f, v)
  }

  /** An update body is valid when every field it supplies meets its constraint. */
  predicate ValidUpdatePayload(p: Payload)
  {
    OptionalFieldValid(Title, p.title) && OptionalFieldValid(Level, p.level)
    && OptionalFieldValid(DurationInWeeks, p.durationInWeeks)
  }

  /** Validity of an update body is each field being absent or meeting its own constraint. */
  lemma UpdatePayloadFields(p: Payload)
    ensures ValidUpdatePayload(p) <==> forall f :: OptionalFieldValid(f, FieldOf(p, f))
  {
    if !ValidUpdatePayload(p) {
      assert !OptionalFieldValid(Title, FieldOf(p, Title)) || !OptionalFieldValid(Level, FieldOf(p, Level))
        || !OptionalFieldValid(DurationInWeeks, FieldOf(p, DurationInWeeks));
    }
  }

  /** What every validated patch satisfies: each supplied field meets its constraint. */
  predicate WellFormedPatch(q: UpdateCourseDto)
  {
    (q.title.Some? ==> |q.title.value| > 0) && (q.durationInWeeks.Some? ==> q.durationInWeeks.value >= 1)
  }

  /** The request body that carries a patch. */
  function PatchToPayload(q: UpdateCourseDto): Payload
  {
    Payload(
      if q.title.Some? then Some(Text(q.title.value)) else None,
      if q.level.Some? then Some(Text(LevelName(q.level.value))) else None,
      if q.durationInWeeks.Some? then WeeksValue(q.durationInWeeks.value) else None)
  }

  /**
   * Validation of an update payload: a patch carrying exactly the supplied values when each
   * supplied field meets its constraint, otherwise exactly the set of failing fields.
   */
  function ValidateUpdate(p: Payload): (r: Result<UpdateCourseDto, set<Field>>)
    ensures r.Success? <==> ValidUpdatePayload(p)
    ensures r.Success? ==> WellFormedPatch(r.value) && PatchToPayload(r.value) == p
    ensures r.Failure? ==> r.error != {} && forall f :: f in r.error <==> !OptionalFieldValid(f, FieldOf(p, f))
  {
    var failed := FailedFields(OptionalFieldValid(Title, p.title), OptionalFieldValid(Level, p.level),
                               OptionalFieldValid(DurationInWeeks, p.durationInWeeks));
    if failed == {} then
      Success(UpdateCourseDto(
        if p.title.Some? then Some(p.title.value.text) else None,
        if p.level.Some? then Some(ParseLevel(p.level.value.text).value) else None,
        if p.durationInWeeks.Some? then Some(p.durationInWeeks.value.number.Floor) else None))
    else
      Failure(failed)
  }

  /** Update validation accepts exactly the bodies of well-formed patches. */
  lemma {:induction false} ValidateUpdateExactly(p: Payload, q: UpdateCourseDto)
    ensures ValidateUpdate(p) == Success(q) <==> WellFormedPatch(q) && p == PatchToPayload(q)
  {
    if WellFormedPatch(q) && p == PatchToPayload(q) {
      if q.level.Some? { ParseLevelName(q.level.value); }
      if q.durationInWeeks.Some? {
        assert (q.durationInWeeks.value as real).Floor == q.durationInWeeks.value;
      }
    }
  }

  /** A create payload that validates also validates as an update supplying every field. */
  lemma CreateValidIsUpdateValid(p: Payload)
    requires ValidCreatePayload(p)
    ensures ValidUpdatePayload(p)
  {
  }
}
