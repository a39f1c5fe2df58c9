/**
 * The course handlers. A request that passes validation can still be
 * refused by the store: a course code already in use breaks the unique
 * index, and the handler answers 500.
 */
module CourseController {
  import opened Http
  import opened Validation
  import opened Schemas
  import opened Store
  import Routes

  const CourseNotFound := "Curso não encontrado"

  /** One row of the listing: the course and its classes. */
  datatype CourseView = CourseView(course: Course, classes: map<int, Class>)

  /** `listCourses`: every course once, with exactly the classes whose `courseId` names it. */
  function ListCourses(courses: map<int, Course>, classes: map<int, Class>): (r: map<int, CourseView>)
    ensures r.Keys == courses.Keys
    ensures forall id :: id in r ==>
              && r[id].course == courses[id]
              && (forall c :: c in r[id].classes <==> c in classes && classes[c].courseId == Some(id))
              && (forall c :: c in r[id].classes ==> r[id].classes[c] == classes[c])
  {
    map id | id in courses :: CourseView(courses[id], ClassesOf(classes, id))
  }

  /** A body that passes the POST chain always makes a course, of workload at least 1, with the code sent. */
  lemma ValidBodyMakesCourse(req: Request, lib: Lib)
    requires Errors(Routes.CourseCreate, req, lib) == []
    ensures NewCourse(req.body).Some?
    ensures NewCourse(req.body).value.workload >= 1
  {
    Routes.CourseCreateMeaning(req, lib);
  }

  /** A body that passes the PUT chain always merges: a workload or status it sends is one the columns take. */
  lemma ValidBodyMergesCourse(c: Course, req: Request, lib: Lib)
    requires Errors(Routes.CourseUpdate, req, lib) == []
    ensures MergeCourse(c, req.body).Some?
  {
    Routes.CourseUpdateMeaning(req, lib);
  }

  /** `createCourse` (its route's validators and the unique index on `code` included). */
  method CreateCourse(db: Db, req: Request, lib: Lib) returns (r: Reply<Row<Course>>)
    requires db.Valid()
    modifies db`courses, db`nextCourse
    ensures db.Valid()
    ensures r.Invalid? || r.Internal? || r.Created?
    ensures r.Invalid? <==> Errors(Routes.CourseCreate, req, lib) != []
    ensures Errors(Routes.CourseCreate, req, lib) != [] ==> r == Invalid(Errors(Routes.CourseCreate, req, lib))
    ensures r.Internal? <==>
              Errors(Routes.CourseCreate, req, lib) == []
              && !(NewCourse(req.body).Some? && CodeFree(old(db.courses), NewCourse(req.body).value.code))
    ensures r.Created? <==>
              Errors(Routes.CourseCreate, req, lib) == []
              && NewCourse(req.body).Some? && CodeFree(old(db.courses), NewCourse(req.body).value.code)
    ensures !r.Created? ==> db.courses == old(db.courses) && db.nextCourse == old(db.nextCourse)
    ensures r.Created? ==>
              && r.value.id == old(db.nextCourse) && r.value.id !in old(db.courses)
              && NewCourse(req.body) == Some(r.value.value)
              && CodeFree(old(db.courses), r.value.value.code)
              && db.courses == old(db.courses)[r.value.id := r.value.value]
              && db.nextCourse == old(db.nextCourse) + 1
  {
    var errs := Errors(Routes.CourseCreate, req, lib);
    if errs != [] {
      return Invalid(errs);
    }
    ValidBodyMakesCourse(req, lib);
    var c := NewCourse(req.body).value;
    if !CodeFree(db.courses, c.code) {
      return Internal;
    }
    var id := db.nextCourse;
    ReplaceKeepsUniqueCodes(db.courses, id, c);
    db.courses := db.courses[id := c];
    db.nextCourse := id + 1;
    r := Created(Row(id, c));
  }

  /** `updateCourse`: only the fields sent change; a code another course holds is refused by the store. */
  method UpdateCourse(db: Db, req: Request, lib: Lib) returns (r: Reply<Row<Course>>)
    requires db.Valid()
    modifies db`courses
    ensures db.Valid()
    ensures r.Invalid? || r.NotFound? || r.Internal? || r.Ok?
    ensures r.Invalid? <==> Errors(Routes.CourseUpdate, req, lib) != []
    ensures Errors(Routes.CourseUpdate, req, lib) != [] ==> r == Invalid(Errors(Routes.CourseUpdate, req, lib))
    ensures r.NotFound? <==> Errors(Routes.CourseUpdate, req, lib) == [] && !Present(old(db.courses), KeyOf(req))
    ensures r.NotFound? ==> r.message == CourseNotFound
    ensures r.Internal? <==>
              Errors(Routes.CourseUpdate, req, lib) == [] && Present(old(db.courses), KeyOf(req))
              && var merged := MergeCourse(old(db.courses)[KeyOf(req).value], req.body);
                 !(merged.Some? && CodeFree(old(db.courses) - {KeyOf(req).value}, merged.value.code))
    ensures r.Ok? <==>
              Errors(Routes.CourseUpdate, req, lib) == [] && Present(old(db.courses), KeyOf(req))
              && var merged := MergeCourse(old(db.courses)[KeyOf(req).value], req.body);
                 merged.Some? && CodeFree(old(db.courses) - {KeyOf(req).value}, merged.value.code)
    ensures !r.Ok? ==> db.courses == old(db.courses)
    ensures r.Ok? ==>
              && KeyOf(req) == Some(r.value.id) && r.value.id in old(db.courses)
              && MergeCourse(old(db.courses)[r.value.id], req.body) == Some(r.value.value)
              && db.courses == old(db.courses)[r.value.id := r.value.value]
  {
    var errs := Errors(Routes.CourseUpdate, req, lib);
    if errs != [] {
      return Invalid(errs);
    }
    var key := KeyOf(req);
    if !Present(db.courses, key) {
      return NotFound(CourseNotFound);
    }
    var id := key.value;
    ValidBodyMergesCourse(db.courses[id], req, lib);
    var c := MergeCourse(db.courses[id], req.body).value;
    if !CodeFree(db.courses - {id}, c.code) {
      return Internal;
    }
    ReplaceKeepsUniqueCodes(db.courses, id, c);
    db.courses := db.courses[id := c];
    r := Ok(Row(id, c));
  }

  /** `deleteCourse`: no validation is consulted; the classes of the course are left as they are. */
  method DeleteCourse(db: Db, req: Request) returns (r: Reply<()>)
    requires db.Valid()
    modifies db`courses
    ensures db.Valid()
    ensures r == NoContent || r == NotFound(CourseNotFound)
    ensures r == NoContent <==> Present(old(db.courses), KeyOf(req))
    ensures r == NoContent ==> db.courses == old(db.courses) - {KeyOf(req).value}
    ensures r != NoContent ==> db.courses == old(db.courses)
  {
    var key := KeyOf(req);
    if !Present(db.courses, key) {
      return NotFound(CourseNotFound);
    }
    db.courses := db.courses - {key.value};
    r := NoContent;
  }
}
