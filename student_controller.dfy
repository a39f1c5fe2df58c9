/**
 * The student handlers. Email and document are unique columns: a request
 * that passes validation but repeats another student's email or document is
 * refused by the store, and the handler answers 500.
 */
module StudentController {
  import opened Http
  import opened Validation
  import opened Schemas
  import opened Store
  import Routes

  const StudentNotFound := "Estudante não encontrado"

  datatype EnrollmentWithClass = EnrollmentWithClass(enrollment: Enrollment, classroom: Option<ClassWithCourse>)

  /** One row of the listing: the student and their enrollments (each with its class and that class's course). */
  datatype StudentView = StudentView(student: Student, enrollments: map<int, EnrollmentWithClass>)

  /** `listStudents`: every student once, with exactly the enrollments whose `studentId` names them. */
  function ListStudents(students: map<int, Student>, enrollments: map<int, Enrollment>,
                        classes: map<int, Class>, courses: map<int, Course>): (r: map<int, StudentView>)
    ensures r.Keys == students.Keys
    ensures forall id :: id in r ==>
              && r[id].student == students[id]
              && r[id].enrollments.Keys == EnrollmentsOfStudent(enrollments, id).Keys
              && (forall e :: e in r[id].enrollments ==>
                    && r[id].enrollments[e].enrollment == enrollments[e]
                    && r[id].enrollments[e].classroom == ClassWithCourseOf(classes, courses, enrollments[e].classId))
  {
    map id | id in students ::
      StudentView(students[id],
                  map e | e in EnrollmentsOfStudent(enrollments, id) ::
                    EnrollmentWithClass(enrollments[e], ClassWithCourseOf(classes, courses, enrollments[e].classId)))
  }

  /** A body that passes the POST chain always makes a student (the model's own email check included). */
  lemma ValidBodyMakesStudent(req: Request, lib: Lib)
    requires Errors(Routes.StudentCreate, req, lib) == []
    ensures NewStudent(req.body, lib).Some?
  {
    Routes.StudentCreateMeaning(req, lib);
  }

  /** A body that passes the PUT chain merges into any student: an email it sends passes the same `isEmail`. */
  lemma ValidBodyMergesStudent(s: Student, req: Request, lib: Lib)
    requires Errors(Routes.StudentUpdate, req, lib) == []
    ensures MergeStudent(s, req.body, lib).Some?
  {
    Routes.StudentUpdateMeaning(req, lib);
  }

  /** `createStudent` (its route's validators and the unique email and document columns included). */
  method CreateStudent(db: Db, req: Request, lib: Lib) returns (r: Reply<Row<Student>>)
    requires db.Valid()
    modifies db`students, db`nextStudent
    ensures db.Valid()
    ensures r.Invalid? || r.Internal? || r.Created?
    ensures r.Invalid? <==> Errors(Routes.StudentCreate, req, lib) != []
    ensures Errors(Routes.StudentCreate, req, lib) != [] ==> r == Invalid(Errors(Routes.StudentCreate, req, lib))
    ensures r.Internal? <==>
              Errors(Routes.StudentCreate, req, lib) == []
              && !(NewStudent(req.body, lib).Some? && StudentFree(old(db.students), NewStudent(req.body, lib).value))
    ensures r.Created? <==>
              Errors(Routes.StudentCreate, req, lib) == []
              && NewStudent(req.body, lib).Some? && StudentFree(old(db.students), NewStudent(req.body, lib).value)
    ensures !r.Created? ==> db.students == old(db.students) && db.nextStudent == old(db.nextStudent)
    ensures r.Created? ==>
              && r.value.id == old(db.nextStudent) && r.value.id !in old(db.students)
              && NewStudent(req.body, lib) == Some(r.value.value)
              && StudentFree(old(db.students), r.value.value)
              && db.students == old(db.students)[r.value.id := r.value.value]
              && db.nextStudent == old(db.nextStudent) + 1
  {
    var errs := Errors(Routes.StudentCreate, req, lib);
    if errs != [] {
      return Invalid(errs);
    }
    ValidBodyMakesStudent(req, lib);
    var s := NewStudent(req.body, lib).value;
    if !StudentFree(db.students, s) {
      return Internal;
    }
    var id := db.nextStudent;
    ReplaceKeepsUniqueStudents(db.students, id, s);
    db.students := db.students[id := s];
    db.nextStudent := id + 1;
    r := Created(Row(id, s));
  }

  /** `updateStudent`: only the fields sent change; the model checks a new email and the store its uniqueness. */
  method UpdateStudent(db: Db, req: Request, lib: Lib) returns (r: Reply<Row<Student>>)
    requires db.Valid()
    modifies db`students
    ensures db.Valid()
    ensures r.Invalid? || r.NotFound? || r.Internal? || r.Ok?
    ensures r.Invalid? <==> Errors(Routes.StudentUpdate, req, lib) != []
    ensures Errors(Routes.StudentUpdate, req, lib) != [] ==> r == Invalid(Errors(Routes.StudentUpdate, req, lib))
    ensures r.NotFound? <==> Errors(Routes.StudentUpdate, req, lib) == [] && !Present(old(db.students), KeyOf(req))
    ensures r.NotFound? ==> r.message == StudentNotFound
    ensures r.Internal? <==>
              Errors(Routes.StudentUpdate, req, lib) == [] && Present(old(db.students), KeyOf(req))
              && var merged := MergeStudent(old(db.students)[KeyOf(req).value], req.body, lib);
                 merged.None? || !StudentFree(old(db.students) - {KeyOf(req).value}, merged.value)
    ensures r.Ok? <==>
              Errors(Routes.StudentUpdate, req, lib) == [] && Present(old(db.students), KeyOf(req))
              && var merged := MergeStudent(old(db.students)[KeyOf(req).value], req.body, lib);
                 merged.Some? && StudentFree(old(db.students) - {KeyOf(req).value}, merged.value)
    ensures !r.Ok? ==> db.students == old(db.students)
    ensures r.Ok? ==>
              && KeyOf(req) == Some(r.value.id) && r.value.id in old(db.students)
              && MergeStudent(old(db.students)[r.value.id], req.body, lib) == Some(r.value.value)
              && db.students == old(db.students)[r.value.id := r.value.value]
  {
    var errs := Errors(Routes.StudentUpdate, req, lib);
    if errs != [] {
      return Invalid(errs);
    }
    var key := KeyOf(req);
    if !Present(db.students, key) {
      return NotFound(StudentNotFound);
    }
    var id := key.value;
    var merged := MergeStudent(db.students[id], req.body, lib);
    if merged.None? || !StudentFree(db.students - {id}, merged.value) {
      return Internal;
    }
    ReplaceKeepsUniqueStudents(db.students, id, merged.value);
    db.students := db.students[id := merged.value];
    r := Ok(Row(id, merged.value));
  }

  /** `deleteStudent`: no validation is consulted; the student's enrollments are left as they are. */
  method DeleteStudent(db: Db, req: Request) returns (r: Reply<()>)
    requires db.Valid()
    modifies db`students
    ensures db.Valid()
    ensures r == NoContent || r == NotFound(StudentNotFound)
    ensures r == NoContent <==> Present(old(db.students), KeyOf(req))
    ensures r == NoContent ==> db.students == old(db.students) - {KeyOf(req).value}
    ensures r != NoContent ==> db.students == old(db.students)
  {
    var key := KeyOf(req);
    if !Present(db.students, key) {
      return NotFound(StudentNotFound);
    }
    db.students := db.students - {key.value};
    r := NoContent;
  }
}
