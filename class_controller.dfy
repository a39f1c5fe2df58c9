/**
 * The class handlers. Creating and updating a class store what the body
 * says; in particular an update may set the capacity below the number of
 * enrollments the class already has — nothing compares the two.
 */
module ClassController {
  import opened Http
  import opened Validation
  import opened Schemas
  import opened Store
  import Routes

  const ClassNotFound := "Turma não encontrada"

  datatype EnrollmentWithStudent = EnrollmentWithStudent(enrollment: Enrollment, student: Option<Student>)

  /** One row of the listing: the class, its course and its enrollments (each with its student). */
  datatype ClassView = ClassView(classroom: Class, course: Option<Course>, enrollments: map<int, EnrollmentWithStudent>)

  /** The enrollments of class `c`, each joined with the student it names. */
  function EnrollmentsWithStudents(enrollments: map<int, Enrollment>, students: map<int, Student>, c: int)
    : (m: map<int, EnrollmentWithStudent>)
    ensures m.Keys == EnrollmentsOf(enrollments, c).Keys
    ensures forall e :: e in m ==>
              m[e].enrollment == enrollments[e] && m[e].student == Lookup(students, enrollments[e].studentId)
  {
    map e | e in EnrollmentsOf(enrollments, c) ::
      EnrollmentWithStudent(enrollments[e], Lookup(students, enrollments[e].studentId))
  }

  /** `listClasses`: every class once; the enrollments listed under a class are exactly those its count counts. */
  function ListClasses(classes: map<int, Class>, courses: map<int, Course>,
                       enrollments: map<int, Enrollment>, students: map<int, Student>): (r: map<int, ClassView>)
    ensures r.Keys == classes.Keys
    ensures forall id :: id in r ==>
              && r[id].classroom == classes[id]
              && (r[id].course.Some? <==> Present(courses, classes[id].courseId))
              && (r[id].course.Some? ==> r[id].course.value == courses[classes[id].courseId.value])
              && r[id].enrollments.Keys == EnrollmentsOf(enrollments, id).Keys
              && |r[id].enrollments| == ClassCount(enrollments, id)
              && (forall e :: e in r[id].enrollments ==>
                    && r[id].enrollments[e].enrollment == enrollments[e]
                    && r[id].enrollments[e].student == Lookup(students, enrollments[e].studentId))
  {
    map id | id in classes ::
      ClassView(classes[id], Lookup(courses, classes[id].courseId), EnrollmentsWithStudents(enrollments, students, id))
  }

  /** A body that passes the POST chain always makes a class, of capacity at least 1, in the named course. */
  lemma ValidBodyMakesClass(req: Request, lib: Lib)
    requires Errors(Routes.ClassCreate, req, lib) == []
    ensures NewClass(req.body).Some?
    ensures NewClass(req.body).value.capacity >= 1
    ensures NewClass(req.body).value.courseId == ToInt(Routes.BodyField(req, "courseId"))
  {
    Routes.ClassCreateMeaning(req, lib);
  }

  /** `createClass` (its route's validators included). */
  method CreateClass(db: Db, req: Request, lib: Lib) returns (r: Reply<Row<Class>>)
    requires db.Valid()
    modifies db`classes, db`nextClass
    ensures db.Valid()
    ensures r.Invalid? || r.Created?
    ensures Errors(Routes.ClassCreate, req, lib) != [] ==> r == Invalid(Errors(Routes.ClassCreate, req, lib))
    ensures r.Created? <==> Errors(Routes.ClassCreate, req, lib) == []
    ensures !r.Created? ==> db.classes == old(db.classes) && db.nextClass == old(db.nextClass)
    ensures r.Created? ==>
              && r.value.id == old(db.nextClass) && r.value.id !in old(db.classes)
              && NewClass(req.body) == Some(r.value.value)
              && r.value.value.capacity >= 1
              && db.classes == old(db.classes)[r.value.id := r.value.value]
              && db.nextClass == old(db.nextClass) + 1
  {
    var errs := Errors(Routes.ClassCreate, req, lib);
    if errs != [] {
      return Invalid(errs);
    }
    ValidBodyMakesClass(req, lib);
    var c := NewClass(req.body).value;
    var id := db.nextClass;
    db.classes := db.classes[id := c];
    db.nextClass := id + 1;
    r := Created(Row(id, c));
  }

  /** `updateClass`: only the fields sent change; the capacity is not compared with the enrollments. */
  method UpdateClass(db: Db, req: Request, lib: Lib) returns (r: Reply<Row<Class>>)
    requires db.Valid()
    modifies db`classes
    ensures db.Valid()
    ensures r.Invalid? || r.NotFound? || r.Internal? || r.Ok?
    ensures r.Invalid? <==> Errors(Routes.ClassUpdate, req, lib) != []
    ensures Errors(Routes.ClassUpdate, req, lib) != [] ==> r == Invalid(Errors(Routes.ClassUpdate, req, lib))
    ensures r.NotFound? <==> Errors(Routes.ClassUpdate, req, lib) == [] && !Present(old(db.classes), KeyOf(req))
    ensures r.NotFound? ==> r.message == ClassNotFound
    ensures r.Internal? <==>
              Errors(Routes.ClassUpdate, req, lib) == [] && Present(old(db.classes), KeyOf(req))
              && MergeClass(old(db.classes)[KeyOf(req).value], req.body).None?
    ensures r.Ok? <==>
              Errors(Routes.ClassUpdate, req, lib) == [] && Present(old(db.classes), KeyOf(req))
              && MergeClass(old(db.classes)[KeyOf(req).value], req.body).Some?
    ensures !r.Ok? ==> db.classes == old(db.classes)
    ensures r.Ok? ==>
              && KeyOf(req) == Some(r.value.id) && r.value.id in old(db.classes)
              && MergeClass(old(db.classes)[r.value.id], req.body) == Some(r.value.value)
              && r.value.value.capacity >= 1
              && db.classes == old(db.classes)[r.value.id := r.value.value]
  {
    var errs := Errors(Routes.ClassUpdate, req, lib);
    if errs != [] {
      return Invalid(errs);
    }
    Routes.ClassUpdateMeaning(req, lib);
    var key := KeyOf(req);
    if !Present(db.classes, key) {
      return NotFound(ClassNotFound);
    }
    var id := key.value;
    var merged := MergeClass(db.classes[id], req.body);
    if merged.None? {
      return Internal;
    }
    db.classes := db.classes[id := merged.value];
    r := Ok(Row(id, merged.value));
  }

  /** `deleteClass`: no validation is consulted; the enrollments of the class are left as they are. */
  method DeleteClass(db: Db, req: Request) returns (r: Reply<()>)
    requires db.Valid()
    modifies db`classes
    ensures db.Valid()
    ensures r == NoContent || r == NotFound(ClassNotFound)
    ensures r == NoContent <==> Present(old(db.classes), KeyOf(req))
    ensures r == NoContent ==> db.classes == old(db.classes) - {KeyOf(req).value}
    ensures r != NoContent ==> db.classes == old(db.classes)
  {
    var key := KeyOf(req);
    if !Present(db.classes, key) {
      return NotFound(ClassNotFound);
    }
    db.classes := db.classes - {key.value};
    r := NoContent;
  }

  /**
   * Lowering the capacity is accepted whatever the count: an update of
   * stored class `id` whose body sets capacity 1 yields capacity 1 even when
   * more enrollments than that name the class, after which it admits nobody.
   */
  lemma CapacityMayDropBelowCount(classes: map<int, Class>, t: map<int, Enrollment>, id: int)
    requires id in classes && ClassCount(t, id) >= 2
    ensures MergeClass(classes[id], map["capacity" := "1"]).Some?
    ensures MergeClass(classes[id], map["capacity" := "1"]).value.capacity < ClassCount(t, id)
  {
    assert IntText("1") && DigitsValue("1") == 1 by {
      assert "1"[..0] == "";
    }
  }
}
