/**
 * The validator chains each router declares, rule for rule, and lemmas that
 * say in plain terms what a request must look like to pass each chain.
 * Which routers sit behind the authentication gate is in `Api`.
 */
module Routes {
  import opened Http
  import opened Validation
  import opened Schemas

  // ---- enrollmentRoutes ----

  const EnrollmentCreate: seq<Rule> := [
    Rule(InBody, "studentId", false, IntAtLeast(1)),
    Rule(InBody, "classId", false, IntAtLeast(1)),
    Rule(InBody, "status", true, IsIn(EnrollmentStatusNames))
  ]

  const EnrollmentUpdate: seq<Rule> := [
    Rule(InParams, "id", false, IntAtLeast(1)),
    Rule(InBody, "status", true, IsIn(EnrollmentStatusNames))
  ]

  /** Declared on DELETE, but the delete handler never reads the validation result. */
  const EnrollmentDelete: seq<Rule> := [Rule(InParams, "id", false, IntAtLeast(1))]

  // ---- classRoutes ----

  const ClassCreate: seq<Rule> := [
    Rule(InBody, "name", false, NotEmpty),
    Rule(InBody, "courseId", false, IntAtLeast(1)),
    Rule(InBody, "startDate", false, IsIso8601),
    Rule(InBody, "endDate", false, IsIso8601),
    Rule(InBody, "capacity", false, IntAtLeast(1))
  ]

  const ClassUpdate: seq<Rule> := [
    Rule(InParams, "id", false, IntAtLeast(1)),
    Rule(InBody, "startDate", true, IsIso8601),
    Rule(InBody, "endDate", true, IsIso8601),
    Rule(InBody, "capacity", true, IntAtLeast(1))
  ]

  const ClassDelete: seq<Rule> := [Rule(InParams, "id", false, IntAtLeast(1))]

  // ---- courseRoutes ----

  const CourseCreate: seq<Rule> := [
    Rule(InBody, "name", false, NotEmpty),
    Rule(InBody, "code", false, NotEmpty),
    Rule(InBody, "workload", false, IntAtLeast(1)),
    Rule(InBody, "status", true, IsIn(CourseStatusNames))
  ]

  const CourseUpdate: seq<Rule> := [
    Rule(InParams, "id", false, IsInt),
    Rule(InBody, "name", true, NotEmpty),
    Rule(InBody, "workload", true, IntAtLeast(1)),
    Rule(InBody, "status", true, IsIn(CourseStatusNames))
  ]

  const CourseDelete: seq<Rule> := [Rule(InParams, "id", false, IsInt)]

  // ---- studentRoutes ----

  const StudentCreate: seq<Rule> := [
    Rule(InBody, "name", false, NotEmpty),
    Rule(InBody, "email", false, IsEmail),
    Rule(InBody, "document", false, NotEmpty),
    Rule(InBody, "birthDate", true, IsIso8601)
  ]

  const StudentUpdate: seq<Rule> := [
    Rule(InParams, "id", false, IsInt),
    Rule(InBody, "email", true, IsEmail),
    Rule(InBody, "birthDate", true, IsIso8601)
  ]

  const StudentDelete: seq<Rule> := [Rule(InParams, "id", false, IsInt)]

  // ---- authRoutes ----

  const Register: seq<Rule> := [
    Rule(InBody, "name", false, NotEmpty),
    Rule(InBody, "email", false, IsEmail),
    Rule(InBody, "password", false, MinLength(6)),
    Rule(InBody, "role", true, IsIn(RoleNames))
  ]

  const Login: seq<Rule> := [
    Rule(InBody, "email", false, IsEmail),
    Rule(InBody, "password", false, NotEmpty)
  ]

  // ---- What passing a chain means ----

  /** Present, integer text, and at least 1. */
  predicate PositiveInt(v: Option<string>)
  {
    v.Some? && IntText(v.value) && ParseInt(v.value) >= 1
  }

  predicate AbsentOrOneOf(v: Option<string>, names: seq<string>)
  {
    v.None? || v.value in names
  }

  predicate Filled(v: Option<string>)
  {
    v.Some? && v.value != ""
  }

  predicate IsoDate(v: Option<string>, lib: Lib)
  {
    v.Some? && v.value != "" && lib.isIso8601(v.value)
  }

  predicate AbsentOrDate(v: Option<string>, lib: Lib)
  {
    v.None? || IsoDate(v, lib)
  }

  predicate Email(v: Option<string>, lib: Lib)
  {
    v.Some? && v.value != "" && lib.isEmail(v.value)
  }

  function BodyField(req: Request, name: string): Option<string>
  {
    Field(req, InBody, name)
  }

  function IdParam(req: Request): Option<string>
  {
    Field(req, InParams, "id")
  }

  /** POST /enrollments: both ids are integers at least 1; a status, if sent, is one of the three. */
  lemma EnrollmentCreateMeaning(req: Request, lib: Lib)
    ensures Errors(EnrollmentCreate, req, lib) == [] <==>
            PositiveInt(BodyField(req, "studentId")) && PositiveInt(BodyField(req, "classId"))
            && AbsentOrOneOf(BodyField(req, "status"), EnrollmentStatusNames)
  {
    ErrorsEmptyIff(EnrollmentCreate, req, lib);
    assert Passes(EnrollmentCreate[2], req, lib) <==> AbsentOrOneOf(BodyField(req, "status"), EnrollmentStatusNames);
    assert Passes(EnrollmentCreate[0], req, lib) <==> PositiveInt(BodyField(req, "studentId"));
    assert Passes(EnrollmentCreate[1], req, lib) <==> PositiveInt(BodyField(req, "classId"));
  }

  /** PUT /enrollments/:id: the id is an integer at least 1; a status, if sent, is one of the three. */
  lemma EnrollmentUpdateMeaning(req: Request, lib: Lib)
    ensures Errors(EnrollmentUpdate, req, lib) == [] <==>
            PositiveInt(IdParam(req)) && AbsentOrOneOf(BodyField(req, "status"), EnrollmentStatusNames)
  {
    ErrorsEmptyIff(EnrollmentUpdate, req, lib);
    assert Passes(EnrollmentUpdate[1], req, lib) <==> AbsentOrOneOf(BodyField(req, "status"), EnrollmentStatusNames);
    assert Passes(EnrollmentUpdate[0], req, lib) <==> PositiveInt(IdParam(req));
  }

  /** POST /classes: name filled, courseId and capacity integers at least 1, both dates ISO 8601 (their order is not checked). */
  lemma ClassCreateMeaning(req: Request, lib: Lib)
    ensures Errors(ClassCreate, req, lib) == [] <==>
            Filled(BodyField(req, "name")) && PositiveInt(BodyField(req, "courseId"))
            && IsoDate(BodyField(req, "startDate"), lib) && IsoDate(BodyField(req, "endDate"), lib)
            && PositiveInt(BodyField(req, "capacity"))
  {
    ErrorsEmptyIff(ClassCreate, req, lib);
    assert Passes(ClassCreate[0], req, lib) <==> Filled(BodyField(req, "name"));
    assert Passes(ClassCreate[1], req, lib) <==> PositiveInt(BodyField(req, "courseId"));
    assert Passes(ClassCreate[2], req, lib) <==> IsoDate(BodyField(req, "startDate"), lib);
    assert Passes(ClassCreate[3], req, lib) <==> IsoDate(BodyField(req, "endDate"), lib);
    assert Passes(ClassCreate[4], req, lib) <==> PositiveInt(BodyField(req, "capacity"));
  }

  /** PUT /classes/:id: id at least 1; dates and capacity are optional but checked when sent. */
  lemma ClassUpdateMeaning(req: Request, lib: Lib)
    ensures Errors(ClassUpdate, req, lib) == [] <==>
            PositiveInt(IdParam(req))
            && AbsentOrDate(BodyField(req, "startDate"), lib) && AbsentOrDate(BodyField(req, "endDate"), lib)
            && (BodyField(req, "capacity").None? || PositiveInt(BodyField(req, "capacity")))
  {
    ErrorsEmptyIff(ClassUpdate, req, lib);
    assert Passes(ClassUpdate[1], req, lib) <==> AbsentOrDate(BodyField(req, "startDate"), lib);
    assert Passes(ClassUpdate[2], req, lib) <==> AbsentOrDate(BodyField(req, "endDate"), lib);
    assert Passes(ClassUpdate[0], req, lib) <==> PositiveInt(IdParam(req));
    assert Passes(ClassUpdate[3], req, lib) <==> (BodyField(req, "capacity").None? || PositiveInt(BodyField(req, "capacity")));
  }

  /** POST /courses: name and code filled, workload an integer at least 1, status (if sent) active or inactive. */
  lemma CourseCreateMeaning(req: Request, lib: Lib)
    ensures Errors(CourseCreate, req, lib) == [] <==>
            Filled(BodyField(req, "name")) && Filled(BodyField(req, "code"))
            && PositiveInt(BodyField(req, "workload")) && AbsentOrOneOf(BodyField(req, "status"), CourseStatusNames)
  {
    ErrorsEmptyIff(CourseCreate, req, lib);
    assert Passes(CourseCreate[3], req, lib) <==> AbsentOrOneOf(BodyField(req, "status"), CourseStatusNames);
    assert Passes(CourseCreate[0], req, lib) <==> Filled(BodyField(req, "name"));
    assert Passes(CourseCreate[1], req, lib) <==> Filled(BodyField(req, "code"));
    assert Passes(CourseCreate[2], req, lib) <==> PositiveInt(BodyField(req, "workload"));
  }

  /** PUT /courses/:id: the id is integer text (no lower bound); the rest is checked only when sent. */
  lemma CourseUpdateMeaning(req: Request, lib: Lib)
    ensures Errors(CourseUpdate, req, lib) == [] <==>
            IdParam(req).Some? && IntText(IdParam(req).value)
            && (BodyField(req, "name").None? || Filled(BodyField(req, "name")))
            && (BodyField(req, "workload").None? || PositiveInt(BodyField(req, "workload")))
            && AbsentOrOneOf(BodyField(req, "status"), CourseStatusNames)
  {
    ErrorsEmptyIff(CourseUpdate, req, lib);
    assert Passes(CourseUpdate[3], req, lib) <==> AbsentOrOneOf(BodyField(req, "status"), CourseStatusNames);
    assert Passes(CourseUpdate[0], req, lib) <==> IdParam(req).Some? && IntText(IdParam(req).value);
    assert Passes(CourseUpdate[1], req, lib) <==> (BodyField(req, "name").None? || Filled(BodyField(req, "name")));
    assert Passes(CourseUpdate[2], req, lib) <==> (BodyField(req, "workload").None? || PositiveInt(BodyField(req, "workload")));
  }

  /** POST /students: name and document filled, a valid email, and a birth date (if sent) in ISO 8601. */
  lemma StudentCreateMeaning(req: Request, lib: Lib)
    ensures Errors(StudentCreate, req, lib) == [] <==>
            Filled(BodyField(req, "name")) && Email(BodyField(req, "email"), lib)
            && Filled(BodyField(req, "document")) && AbsentOrDate(BodyField(req, "birthDate"), lib)
  {
    ErrorsEmptyIff(StudentCreate, req, lib);
    assert Passes(StudentCreate[3], req, lib) <==> AbsentOrDate(BodyField(req, "birthDate"), lib);
    assert Passes(StudentCreate[0], req, lib) <==> Filled(BodyField(req, "name"));
    assert Passes(StudentCreate[1], req, lib) <==> Email(BodyField(req, "email"), lib);
    assert Passes(StudentCreate[2], req, lib) <==> Filled(BodyField(req, "document"));
  }

  /** PUT /students/:id: the id is integer text; email and birth date are checked only when sent. */
  lemma StudentUpdateMeaning(req: Request, lib: Lib)
    ensures Errors(StudentUpdate, req, lib) == [] <==>
            IdParam(req).Some? && IntText(IdParam(req).value)
            && (BodyField(req, "email").None? || Email(BodyField(req, "email"), lib))
            && AbsentOrDate(BodyField(req, "birthDate"), lib)
  {
    ErrorsEmptyIff(StudentUpdate, req, lib);
    assert Passes(StudentUpdate[2], req, lib) <==> AbsentOrDate(BodyField(req, "birthDate"), lib);
    assert Passes(StudentUpdate[0], req, lib) <==> IdParam(req).Some? && IntText(IdParam(req).value);
    assert Passes(StudentUpdate[1], req, lib) <==> (BodyField(req, "email").None? || Email(BodyField(req, "email"), lib));
  }

  /** POST /auth/register: name filled, a valid email, a password `isLength` measures at 6 or more, a known role if sent. */
  lemma RegisterMeaning(req: Request, lib: Lib)
    ensures Errors(Register, req, lib) == [] <==>
            Filled(BodyField(req, "name")) && Email(BodyField(req, "email"), lib)
            && BodyField(req, "password").Some? && MeasuredLength(BodyField(req, "password").value) >= 6
            && AbsentOrOneOf(BodyField(req, "role"), RoleNames)
  {
    ErrorsEmptyIff(Register, req, lib);
    assert Passes(Register[3], req, lib) <==> AbsentOrOneOf(BodyField(req, "role"), RoleNames);
    assert Passes(Register[0], req, lib) <==> Filled(BodyField(req, "name"));
    assert Passes(Register[1], req, lib) <==> Email(BodyField(req, "email"), lib);
    assert Passes(Register[2], req, lib) <==> BodyField(req, "password").Some? && MeasuredLength(BodyField(req, "password").value) >= 6;
  }

  /** POST /auth/login: a valid email and a non-empty password. */
  lemma LoginMeaning(req: Request, lib: Lib)
    ensures Errors(Login, req, lib) == [] <==>
            Email(BodyField(req, "email"), lib) && Filled(BodyField(req, "password"))
  {
    ErrorsEmptyIff(Login, req, lib);
    assert Passes(Login[0], req, lib) <==> Email(BodyField(req, "email"), lib);
    assert Passes(Login[1], req, lib) <==> Filled(BodyField(req, "password"));
  }

  /** The DELETE chains reject an id that is no integer, e.g. `abc` (the delete handlers ignore that verdict). */
  lemma DeleteChainsRejectNonIntegers(req: Request, lib: Lib)
    requires IdParam(req) == Some("abc")
    ensures Errors(ClassDelete, req, lib) == [FieldError(InParams, "id")]
    ensures Errors(EnrollmentDelete, req, lib) == [FieldError(InParams, "id")]
    ensures Errors(CourseDelete, req, lib) == [FieldError(InParams, "id")]
    ensures Errors(StudentDelete, req, lib) == [FieldError(InParams, "id")]
  {
    assert !IntText("abc") by {
      assert !IsDigit("abc"[0]);
    }
  }

  /** A body with none of the required fields is answered with one error per required field, in order. */
  lemma EmptyEnrollmentBody(req: Request, lib: Lib)
    requires req.body == map[]
    ensures Errors(EnrollmentCreate, req, lib) == [FieldError(InBody, "studentId"), FieldError(InBody, "classId")]
  {
    var rules := EnrollmentCreate;
    assert !IntText("");
    assert Errors(rules[2..], req, lib) == [] by {
      assert rules[2..][1..] == [];
    }
    assert rules[1..][1..] == rules[2..];
  }
}
