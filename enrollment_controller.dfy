/**
 * The enrollment handlers. `CreateEnrollment` is the admission check: it
 * looks the class up, counts every enrollment of that class (whatever its
 * status) and refuses when the count has reached the capacity; otherwise it
 * inserts exactly one enrollment. The student is never looked up. Update and
 * delete never look at capacity.
 */
module EnrollmentController {
  import opened Http
  import opened Validation
  import opened Schemas
  import opened Store
  import Routes
  import ClassController
  const CapacityReached := "Capacidade da turma atingida"
  const EnrollmentNotFound := "Matrícula não encontrada"

  /** One row of the listing: the enrollment with its student and its class (with the class's course). */
  datatype EnrollmentView = EnrollmentView(enrollment: Enrollment, student: Option<Student>, classroom: Option<ClassWithCourse>)

  /** `listEnrollments`: every enrollment once, joined with the student and class its keys name. */
  function ListEnrollments(enrollments: map<int, Enrollment>, students: map<int, Student>,
                           classes: map<int, Class>, courses: map<int, Course>): (r: map<int, EnrollmentView>)
    ensures r.Keys == enrollments.Keys
    ensures forall id :: id in r ==>
              && r[id].enrollment == enrollments[id]
              && (r[id].student.Some? <==> Present(students, enrollments[id].studentId))
              && (r[id].student.Some? ==> r[id].student.value == students[enrollments[id].studentId.value])
              && (r[id].classroom.Some? <==> Present(classes, enrollments[id].classId))
              && (r[id].classroom.Some? ==>
                    var c := classes[enrollments[id].classId.value];
                    && r[id].classroom.value.classroom == c
                    && (r[id].classroom.value.course.Some? <==> Present(courses, c.courseId))
                    && (r[id].classroom.value.course.Some? ==> r[id].classroom.value.course.value == courses[c.courseId.value]))
  {
    map id | id in enrollments ::
      EnrollmentView(enrollments[id], Lookup(students, enrollments[id].studentId),
                     ClassWithCourseOf(classes, courses, enrollments[id].classId))
  }

  /** The class a POST body names. */
  function ClassIdOf(req: Request): Option<int>
  {
    ToInt(Routes.BodyField(req, "classId"))
  }

  /** The class exists and its enrollments are fewer than its capacity. */
  predicate HasRoom(classes: map<int, Class>, enrollments: map<int, Enrollment>, c: int)
  {
    c in classes && ClassCount(enrollments, c) < classes[c].capacity
  }

  /** A body that passes the POST chain names a class (id at least 1) and always makes an enrollment of that class. */
  lemma ValidBodyMakesEnrollment(req: Request, lib: Lib, today: Date)
    requires Errors(Routes.EnrollmentCreate, req, lib) == []
    ensures ClassIdOf(req).Some? && ClassIdOf(req).value >= 1
    ensures NewEnrollment(req.body, today).Some?
    ensures NewEnrollment(req.body, today).value.classId == ClassIdOf(req)
  {
    Routes.EnrollmentCreateMeaning(req, lib);
  }

  /** `createEnrollment` (its route's validators included). */
  method CreateEnrollment(db: Db, req: Request, lib: Lib, today: Date) returns (r: Reply<Row<Enrollment>>)
    requires db.Valid()
    modifies db`enrollments, db`nextEnrollment
    ensures db.Valid()
    // 400 with one error per failing validator; nothing created
    ensures Errors(Routes.EnrollmentCreate, req, lib) != [] ==> r == Invalid(Errors(Routes.EnrollmentCreate, req, lib))
    ensures Errors(Routes.EnrollmentCreate, req, lib) == [] ==> ClassIdOf(req).Some? && !r.Invalid?
    // 404 exactly when the class does not exist
    ensures r.NotFound? <==> Errors(Routes.EnrollmentCreate, req, lib) == [] && !Present(db.classes, ClassIdOf(req))
    ensures r.NotFound? ==> r.message == ClassController.ClassNotFound
    // 400 "capacity reached" exactly when the class exists and its count is at least its capacity
    ensures r.Rejected? <==>
              Errors(Routes.EnrollmentCreate, req, lib) == [] && Present(db.classes, ClassIdOf(req))
              && !HasRoom(db.classes, old(db.enrollments), ClassIdOf(req).value)
    ensures r.Rejected? ==> r.message == CapacityReached
    // every refusal leaves the enrollment table as it was
    ensures !r.Created? ==> db.enrollments == old(db.enrollments) && db.nextEnrollment == old(db.nextEnrollment)
    // 201 otherwise: exactly one new enrollment, under a fresh key, built from the body
    ensures r.Created? <==>
              Errors(Routes.EnrollmentCreate, req, lib) == [] && ClassIdOf(req).Some?
              && HasRoom(db.classes, old(db.enrollments), ClassIdOf(req).value)
    ensures r.Created? ==>
              && r.value.id == old(db.nextEnrollment) && r.value.id !in old(db.enrollments)
              && NewEnrollment(req.body, today) == Some(r.value.value)
              && db.enrollments == old(db.enrollments)[r.value.id := r.value.value]
              && db.nextEnrollment == old(db.nextEnrollment) + 1
    // the capacity bound at admission
    ensures r.Created? ==>
              var c := ClassIdOf(req).value;
              && r.value.value.classId == Some(c)
              && ClassCount(db.enrollments, c) == ClassCount(old(db.enrollments), c) + 1
              && ClassCount(db.enrollments, c) <= db.classes[c].capacity
  {
    var errs := Errors(Routes.EnrollmentCreate, req, lib);
    if errs != [] {
      return Invalid(errs);
    }
    ValidBodyMakesEnrollment(req, lib, today);
    var classId := ClassIdOf(req).value;
    if classId !in db.classes {
      return NotFound(ClassController.ClassNotFound);
    }
    var classroom := db.classes[classId];
    if ClassCount(db.enrollments, classId) >= classroom.capacity {
      return Rejected(CapacityReached);
    }
    var e := NewEnrollment(req.body, today).value;
    var id := db.nextEnrollment;
    CountAfterInsert(db.enrollments, id, e, classId);
    db.enrollments := db.enrollments[id := e];
    db.nextEnrollment := id + 1;
    r := Created(Row(id, e));
  }

  /** `updateEnrollment`: merges the body into the one record; capacity is not checked again. */
  method UpdateEnrollment(db: Db, req: Request, lib: Lib) returns (r: Reply<Row<Enrollment>>)
    requires db.Valid()
    modifies db`enrollments
    ensures db.Valid()
    ensures r.Invalid? || r.NotFound? || r.Internal? || r.Ok?
    ensures r.Invalid? <==> Errors(Routes.EnrollmentUpdate, req, lib) != []
    ensures Errors(Routes.EnrollmentUpdate, req, lib) != [] ==> r == Invalid(Errors(Routes.EnrollmentUpdate, req, lib))
    ensures r.NotFound? <==> Errors(Routes.EnrollmentUpdate, req, lib) == [] && !Present(old(db.enrollments), KeyOf(req))
    ensures r.NotFound? ==> r.message == EnrollmentNotFound
    ensures r.Internal? <==>
              Errors(Routes.EnrollmentUpdate, req, lib) == [] && Present(old(db.enrollments), KeyOf(req))
              && MergeEnrollment(old(db.enrollments)[KeyOf(req).value], req.body).None?
    ensures r.Ok? <==>
              Errors(Routes.EnrollmentUpdate, req, lib) == [] && Present(old(db.enrollments), KeyOf(req))
              && MergeEnrollment(old(db.enrollments)[KeyOf(req).value], req.body).Some?
    ensures !r.Ok? ==> db.enrollments == old(db.enrollments)
    ensures r.Ok? ==>
              && KeyOf(req) == Some(r.value.id) && r.value.id in old(db.enrollments)
              && MergeEnrollment(old(db.enrollments)[r.value.id], req.body) == Some(r.value.value)
              && db.enrollments == old(db.enrollments)[r.value.id := r.value.value]
  {
    var errs := Errors(Routes.EnrollmentUpdate, req, lib);
    if errs != [] {
      return Invalid(errs);
    }
    var key := KeyOf(req);
    if !Present(db.enrollments, key) {
      return NotFound(EnrollmentNotFound);
    }
    var id := key.value;
    var merged := MergeEnrollment(db.enrollments[id], req.body);
    if merged.None? {
      return Internal;
    }
    db.enrollments := db.enrollments[id := merged.value];
    r := Ok(Row(id, merged.value));
  }

  /**
   * `deleteEnrollment`. Its route declares an id validator, but this handler
   * never reads the validation result, so no request gets a 400 here.
   */
  method DeleteEnrollment(db: Db, req: Request) returns (r: Reply<()>)
    requires db.Valid()
    modifies db`enrollments
    ensures db.Valid()
    ensures r == NoContent || r == NotFound(EnrollmentNotFound)
    ensures r == NoContent <==> Present(old(db.enrollments), KeyOf(req))
    ensures r == NoContent ==> db.enrollments == old(db.enrollments) - {KeyOf(req).value}
    ensures r != NoContent ==> db.enrollments == old(db.enrollments)
  {
    var key := KeyOf(req);
    if !Present(db.enrollments, key) {
      return NotFound(EnrollmentNotFound);
    }
    db.enrollments := db.enrollments - {key.value};
    r := NoContent;
  }

  /** A class whose count has reached its capacity refuses every further admission, whoever the student. */
  lemma FullClassStaysFull(classes: map<int, Class>, t: map<int, Enrollment>, id: int, e: Enrollment, c: int)
    requires c in classes && ClassCount(t, c) >= classes[c].capacity
    requires id !in t
    ensures !HasRoom(classes, t[id := e], c)
  {
    CountAfterInsert(t, id, e, c);
  }

  /** Admitting into a class that has room never takes its count past its capacity. */
  lemma AdmissionKeepsBound(classes: map<int, Class>, t: map<int, Enrollment>, id: int, e: Enrollment, c: int)
    requires HasRoom(classes, t, c) && id !in t && e.classId == Some(c)
    ensures ClassCount(t[id := e], c) <= classes[c].capacity
  {
    CountAfterInsert(t, id, e, c);
  }

  /**
   * The bound holds at admission only: an update that moves an enrollment
   * into a class which is already full is stored, and the class then holds
   * one enrollment more than before, past its capacity.
   */
  lemma UpdateMayOverfillClass(classes: map<int, Class>, t: map<int, Enrollment>, id: int, c: int)
    requires c in classes && ClassCount(t, c) >= classes[c].capacity
    requires id in t && t[id].classId != Some(c)
    ensures MergeEnrollment(t[id], map["classId" := ShowInt(c)]) == Some(t[id].(classId := Some(c)))
    ensures ClassCount(t[id := t[id].(classId := Some(c))], c) == ClassCount(t, c) + 1
    ensures ClassCount(t[id := t[id].(classId := Some(c))], c) > classes[c].capacity
  {
    ShowIntParses(c);
    var moved := t[id].(classId := Some(c));
    CountAfterRemove(t, id, c);
    CountAfterInsert(t - {id}, id, moved, c);
    assert (t - {id})[id := moved] == t[id := moved];
  }
}
