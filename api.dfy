/**
 * The HTTP surface: which handler answers which resource and action, and the
 * `authenticate` gate in front of every resource router except the auth
 * router. `Handle` answers with the status code the handler's reply carries.
 */
module Api {
  import opened Http
  import opened Validation
  import opened Schemas
  import opened Store
  import opened AuthMiddleware
  import EnrollmentController
  import ClassController
  import CourseController
  import StudentController
  import AuthController
  import Routes

  datatype Resource = Courses | Students | Classes | Enrollments | Auth

  /** GET, POST, PUT and DELETE of a resource router, and the two POST routes of the auth router. */
  datatype Action = List | Create | Update | Delete | Register | Login

  /** What the handlers take from outside the store: the library checks, the token service, the password check and the date. */
  datatype Env = Env(lib: Lib, verify: string -> Option<Claims>, sign: Claims -> string,
                     checkPassword: (User, string) -> bool, today: Date)

  /** Every resource router but the auth router installs `authenticate` first. */
  predicate Gated(res: Resource)
  {
    res != Auth
  }

  /** The route table has an entry for this pair (anything else is Express's default 404). */
  predicate Routed(res: Resource, action: Action)
  {
    if res == Auth then action == Register || action == Login else action != Register && action != Login
  }

  /** The status code the enrollment handlers answer, given the tables before the request. */
  function EnrollmentAnswer(t: Tables, action: Action, req: Request, env: Env): int
  {
    if action == List then 200
    else if action == Create then
      var c := EnrollmentController.ClassIdOf(req);
      if Errors(Routes.EnrollmentCreate, req, env.lib) != [] then 400
      else if !Present(t.classes, c) then 404
      else if !EnrollmentController.HasRoom(t.classes, t.enrollments, c.value) then 400
      else 201
    else if action == Update then
      if Errors(Routes.EnrollmentUpdate, req, env.lib) != [] then 400
      else if !Present(t.enrollments, KeyOf(req)) then 404
      else if MergeEnrollment(t.enrollments[KeyOf(req).value], req.body).None? then 500
      else 200
    else if Present(t.enrollments, KeyOf(req)) then 204
    else 404
  }

  /** The status code the class handlers answer. */
  function ClassAnswer(t: Tables, action: Action, req: Request, env: Env): int
  {
    if action == List then 200
    else if action == Create then
      if Errors(Routes.ClassCreate, req, env.lib) != [] then 400 else 201
    else if action == Update then
      if Errors(Routes.ClassUpdate, req, env.lib) != [] then 400
      else if !Present(t.classes, KeyOf(req)) then 404
      else if MergeClass(t.classes[KeyOf(req).value], req.body).None? then 500
      else 200
    else if Present(t.classes, KeyOf(req)) then 204
    else 404
  }

  /** The status code the course handlers answer; a code another course holds is a 500. */
  function CourseAnswer(t: Tables, action: Action, req: Request, env: Env): int
  {
    if action == List then 200
    else if action == Create then
      var c := NewCourse(req.body);
      if Errors(Routes.CourseCreate, req, env.lib) != [] then 400
      else if c.Some? && CodeFree(t.courses, c.value.code) then 201
      else 500
    else if action == Update then
      if Errors(Routes.CourseUpdate, req, env.lib) != [] then 400
      else if !Present(t.courses, KeyOf(req)) then 404
      else
        var id := KeyOf(req).value;
        var merged := MergeCourse(t.courses[id], req.body);
        if merged.Some? && CodeFree(t.courses - {id}, merged.value.code) then 200 else 500
    else if Present(t.courses, KeyOf(req)) then 204
    else 404
  }

  /** The status code the student handlers answer; an email or document another student holds is a 500. */
  function StudentAnswer(t: Tables, action: Action, req: Request, env: Env): int
  {
    if action == List then 200
    else if action == Create then
      var s := NewStudent(req.body, env.lib);
      if Errors(Routes.StudentCreate, req, env.lib) != [] then 400
      else if s.Some? && StudentFree(t.students, s.value) then 201
      else 500
    else if action == Update then
      if Errors(Routes.StudentUpdate, req, env.lib) != [] then 400
      else if !Present(t.students, KeyOf(req)) then 404
      else
        var id := KeyOf(req).value;
        var merged := MergeStudent(t.students[id], req.body, env.lib);
        if merged.Some? && StudentFree(t.students - {id}, merged.value) then 200 else 500
    else if Present(t.students, KeyOf(req)) then 204
    else 404
  }

  /** The status code the auth handlers answer: 409 for a taken email, one 401 for every failed login. */
  function AuthAnswer(t: Tables, action: Action, req: Request, env: Env): int
  {
    var email, password := AuthController.BodyText(req, "email"), AuthController.BodyText(req, "password");
    if action == Register then
      if Errors(Routes.Register, req, env.lib) != [] then 400
      else if AuthController.Registered(t.users, email) then 409
      else 201
    else if Errors(Routes.Login, req, env.lib) != [] then 400
    else if exists id :: id in t.users && t.users[id].email == email && env.checkPassword(t.users[id], password) then 200
    else 401
  }

  /**
   * The status code the API answers, given the tables before the request.
   * A gated router runs `authenticate` for every request that enters it,
   * before any route is matched, so a refused header is a 401 even on a path
   * the router has no route for; a path with no route is then Express's 404.
   */
  function Answer(t: Tables, res: Resource, action: Action, req: Request, env: Env): (status: int)
    ensures Gated(res) ==> (status == 401 <==> Authenticate(req.authorization, env.verify).Deny?)
    ensures !Gated(res) && !Routed(res, action) ==> status == 404
  {
    if Gated(res) && Authenticate(req.authorization, env.verify).Deny? then 401
    else if !Routed(res, action) then 404
    else
      match res
      case Enrollments => EnrollmentAnswer(t, action, req, env)
      case Classes => ClassAnswer(t, action, req, env)
      case Courses => CourseAnswer(t, action, req, env)
      case Students => StudentAnswer(t, action, req, env)
      case Auth => AuthAnswer(t, action, req, env)
  }

  /**
   * The enrollments table and its counter after the request, given the table
   * before it: a handler writes exactly when it succeeds, and then writes
   * the one row its reply names.
   */
  function EnrollmentStep(t: Tables, next: int, action: Action, req: Request, env: Env): (map<int, Enrollment>, int)
  {
    var status := EnrollmentAnswer(t, action, req, env);
    if action == Create && status == 201 then
      EnrollmentController.ValidBodyMakesEnrollment(req, env.lib, env.today);
      (t.enrollments[next := NewEnrollment(req.body, env.today).value], next + 1)
    else if action == Update && status == 200 then
      var id := KeyOf(req).value;
      (t.enrollments[id := MergeEnrollment(t.enrollments[id], req.body).value], next)
    else if action == Delete && status == 204 then (t.enrollments - {KeyOf(req).value}, next)
    else (t.enrollments, next)
  }

  function ClassStep(t: Tables, next: int, action: Action, req: Request, env: Env): (map<int, Class>, int)
  {
    var status := ClassAnswer(t, action, req, env);
    if action == Create && status == 201 then
      ClassController.ValidBodyMakesClass(req, env.lib);
      (t.classes[next := NewClass(req.body).value], next + 1)
    else if action == Update && status == 200 then
      var id := KeyOf(req).value;
      (t.classes[id := MergeClass(t.classes[id], req.body).value], next)
    else if action == Delete && status == 204 then (t.classes - {KeyOf(req).value}, next)
    else (t.classes, next)
  }

  function CourseStep(t: Tables, next: int, action: Action, req: Request, env: Env): (map<int, Course>, int)
  {
    var status := CourseAnswer(t, action, req, env);
    if action == Create && status == 201 then (t.courses[next := NewCourse(req.body).value], next + 1)
    else if action == Update && status == 200 then
      var id := KeyOf(req).value;
      (t.courses[id := MergeCourse(t.courses[id], req.body).value], next)
    else if action == Delete && status == 204 then (t.courses - {KeyOf(req).value}, next)
    else (t.courses, next)
  }

  function StudentStep(t: Tables, next: int, action: Action, req: Request, env: Env): (map<int, Student>, int)
  {
    var status := StudentAnswer(t, action, req, env);
    if action == Create && status == 201 then (t.students[next := NewStudent(req.body, env.lib).value], next + 1)
    else if action == Update && status == 200 then
      var id := KeyOf(req).value;
      (t.students[id := MergeStudent(t.students[id], req.body, env.lib).value], next)
    else if action == Delete && status == 204 then (t.students - {KeyOf(req).value}, next)
    else (t.students, next)
  }

  /** Registration is the auth router's only write; login changes nothing. */
  function AuthStep(t: Tables, next: int, action: Action, req: Request, env: Env): (map<int, User>, int)
  {
    if action == Register && AuthAnswer(t, action, req, env) == 201 then
      AuthController.ValidBodyMakesUser(req, env.lib);
      (t.users[next := NewUser(req.body).value], next + 1)
    else (t.users, next)
  }

  /**
   * The tables and counters after the request: a request the gate refuses,
   * or one with no route, changes nothing; otherwise the router's handler
   * changes its own table and counter and no other.
   */
  function Step(t: Tables, n: Counters, res: Resource, action: Action, req: Request, env: Env): (Tables, Counters)
  {
    if (Gated(res) && Authenticate(req.authorization, env.verify).Deny?) || !Routed(res, action) then (t, n)
    else
      match res
      case Enrollments =>
        var s := EnrollmentStep(t, n.nextEnrollment, action, req, env);
        (t.(enrollments := s.0), n.(nextEnrollment := s.1))
      case Classes =>
        var s := ClassStep(t, n.nextClass, action, req, env);
        (t.(classes := s.0), n.(nextClass := s.1))
      case Courses =>
        var s := CourseStep(t, n.nextCourse, action, req, env);
        (t.(courses := s.0), n.(nextCourse := s.1))
      case Students =>
        var s := StudentStep(t, n.nextStudent, action, req, env);
        (t.(students := s.0), n.(nextStudent := s.1))
      case Auth =>
        var s := AuthStep(t, n.nextUser, action, req, env);
        (t.(users := s.0), n.(nextUser := s.1))
  }

  /** Only a request the API answers with 200, 201 or 204 changes the store. */
  lemma RefusalChangesNothing(t: Tables, n: Counters, res: Resource, action: Action, req: Request, env: Env)
    requires Answer(t, res, action, req, env) !in {200, 201, 204}
    ensures Step(t, n, res, action, req, env) == (t, n)
  {
  }

  /** A request changes at most the table and counter of the resource it names. */
  lemma StepTouchesOneTable(t: Tables, n: Counters, res: Resource, action: Action, req: Request, env: Env)
    ensures var (t', n') := Step(t, n, res, action, req, env);
            && (res != Enrollments ==> t'.enrollments == t.enrollments && n'.nextEnrollment == n.nextEnrollment)
            && (res != Classes ==> t'.classes == t.classes && n'.nextClass == n.nextClass)
            && (res != Courses ==> t'.courses == t.courses && n'.nextCourse == n.nextCourse)
            && (res != Students ==> t'.students == t.students && n'.nextStudent == n.nextStudent)
            && (res != Auth ==> t'.users == t.users && n'.nextUser == n.nextUser)
  {
  }

  /** A 201 inserts one row under the table's counter and then advances it; a 204 removes the one row the path names. */
  lemma SuccessWrites(t: Tables, n: Counters, res: Resource, action: Action, req: Request, env: Env)
    ensures Answer(t, res, action, req, env) == 201 ==> Step(t, n, res, action, req, env).1 != n
    ensures Answer(t, res, action, req, env) == 204 ==>
              KeyOf(req).Some? && Step(t, n, res, action, req, env).0 != t
  {
  }

  /**
   * The admission bound across one request: an enrollment the API admits
   * (201) takes one seat of the class named, and the class's count stays
   * within its capacity.
   */
  lemma AdmissionStepKeepsBound(t: Tables, n: Counters, req: Request, env: Env)
    requires KeysBelow(t.enrollments, n.nextEnrollment)
    requires Answer(t, Enrollments, Create, req, env) == 201
    ensures EnrollmentController.ClassIdOf(req).Some?
    ensures var c := EnrollmentController.ClassIdOf(req).value;
            var after := Step(t, n, Enrollments, Create, req, env).0;
            && c in t.classes && after.classes == t.classes
            && ClassCount(after.enrollments, c) == ClassCount(t.enrollments, c) + 1
            && ClassCount(after.enrollments, c) <= t.classes[c].capacity
  {
    EnrollmentController.ValidBodyMakesEnrollment(req, env.lib, env.today);
    var c := EnrollmentController.ClassIdOf(req).value;
    CountAfterInsert(t.enrollments, n.nextEnrollment, NewEnrollment(req.body, env.today).value, c);
  }

  lemma EnrollmentAnswerIgnoresHeader(t: Tables, action: Action, req: Request, header: Option<string>, env: Env)
    ensures EnrollmentAnswer(t, action, req, env) == EnrollmentAnswer(t, action, req.(authorization := header), env)
  {
    ErrorsIgnoreHeader(Routes.EnrollmentCreate, req, header, env.lib);
    ErrorsIgnoreHeader(Routes.EnrollmentUpdate, req, header, env.lib);
  }

  lemma ClassAnswerIgnoresHeader(t: Tables, action: Action, req: Request, header: Option<string>, env: Env)
    ensures ClassAnswer(t, action, req, env) == ClassAnswer(t, action, req.(authorization := header), env)
  {
    ErrorsIgnoreHeader(Routes.ClassCreate, req, header, env.lib);
    ErrorsIgnoreHeader(Routes.ClassUpdate, req, header, env.lib);
  }

  lemma CourseAnswerIgnoresHeader(t: Tables, action: Action, req: Request, header: Option<string>, env: Env)
    ensures CourseAnswer(t, action, req, env) == CourseAnswer(t, action, req.(authorization := header), env)
  {
    ErrorsIgnoreHeader(Routes.CourseCreate, req, header, env.lib);
    ErrorsIgnoreHeader(Routes.CourseUpdate, req, header, env.lib);
  }

  lemma StudentAnswerIgnoresHeader(t: Tables, action: Action, req: Request, header: Option<string>, env: Env)
    ensures StudentAnswer(t, action, req, env) == StudentAnswer(t, action, req.(authorization := header), env)
  {
    ErrorsIgnoreHeader(Routes.StudentCreate, req, header, env.lib);
    ErrorsIgnoreHeader(Routes.StudentUpdate, req, header, env.lib);
  }

  lemma AuthAnswerIgnoresHeader(t: Tables, action: Action, req: Request, header: Option<string>, env: Env)
    ensures AuthAnswer(t, action, req, env) == AuthAnswer(t, action, req.(authorization := header), env)
  {
    ErrorsIgnoreHeader(Routes.Register, req, header, env.lib);
    ErrorsIgnoreHeader(Routes.Login, req, header, env.lib);
  }

  /**
   * Past the gate the header plays no part: two requests that differ only in
   * their Authorization header, both accepted, get the same answer.
   */
  lemma HeaderOnlyOpensTheGate(t: Tables, res: Resource, action: Action, req: Request, header: Option<string>, env: Env)
    requires Authenticate(req.authorization, env.verify).Pass? && Authenticate(header, env.verify).Pass?
    ensures Answer(t, res, action, req, env) == Answer(t, res, action, req.(authorization := header), env)
  {
    match res
    case Enrollments => EnrollmentAnswerIgnoresHeader(t, action, req, header, env);
    case Classes => ClassAnswerIgnoresHeader(t, action, req, header, env);
    case Courses => CourseAnswerIgnoresHeader(t, action, req, header, env);
    case Students => StudentAnswerIgnoresHeader(t, action, req, header, env);
    case Auth => AuthAnswerIgnoresHeader(t, action, req, header, env);
  }

  /** One request through the gate and to its router. */
  method Handle(db: Db, res: Resource, action: Action, req: Request, env: Env) returns (status: int)
    requires db.Valid()
    modifies db
    ensures db.Valid()
    ensures status == Answer(old(db.Snapshot()), res, action, req, env)
    ensures (db.Snapshot(), db.Next()) == Step(old(db.Snapshot()), old(db.Next()), res, action, req, env)
    ensures Gated(res) && Authenticate(req.authorization, env.verify).Deny? ==> status == 401 && unchanged(db)
    ensures !Routed(res, action) ==> unchanged(db)
    ensures action == List || action == Login ==> unchanged(db)
    ensures res != Enrollments ==> db.enrollments == old(db.enrollments) && db.nextEnrollment == old(db.nextEnrollment)
    ensures res != Classes ==> db.classes == old(db.classes) && db.nextClass == old(db.nextClass)
    ensures res != Courses ==> db.courses == old(db.courses) && db.nextCourse == old(db.nextCourse)
    ensures res != Students ==> db.students == old(db.students) && db.nextStudent == old(db.nextStudent)
    ensures res != Auth ==> db.users == old(db.users) && db.nextUser == old(db.nextUser)
  {
    if Gated(res) && Authenticate(req.authorization, env.verify).Deny? {
      return 401;
    }
    if !Routed(res, action) {
      return 404;
    }
    status := Dispatch(db, res, action, req, env);
    StepTouchesOneTable(old(db.Snapshot()), old(db.Next()), res, action, req, env);
  }

  /** A request past the gate, for a route the table has, handed to its resource's router. */
  method Dispatch(db: Db, res: Resource, action: Action, req: Request, env: Env) returns (status: int)
    requires db.Valid() && Routed(res, action)
    requires Gated(res) ==> Authenticate(req.authorization, env.verify).Pass?
    modifies db
    ensures db.Valid()
    ensures status == Answer(old(db.Snapshot()), res, action, req, env)
    ensures (db.Snapshot(), db.Next()) == Step(old(db.Snapshot()), old(db.Next()), res, action, req, env)
    ensures action == List || action == Login ==> unchanged(db)
  {
    match res
    case Enrollments => status := EnrollmentRouter(db, action, req, env);
    case Classes => status := ClassRouter(db, action, req, env);
    case Courses => status := CourseRouter(db, action, req, env);
    case Students => status := StudentRouter(db, action, req, env);
    case Auth => status := AuthRouter(db, action, req, env);
  }

  /** The enrollments router behind the gate. */
  method EnrollmentRouter(db: Db, action: Action, req: Request, env: Env) returns (status: int)
    requires db.Valid() && Routed(Enrollments, action)
    requires Authenticate(req.authorization, env.verify).Pass?
    modifies db`enrollments, db`nextEnrollment
    ensures db.Valid()
    ensures status == EnrollmentAnswer(old(db.Snapshot()), action, req, env)
    ensures (db.enrollments, db.nextEnrollment) == EnrollmentStep(old(db.Snapshot()), old(db.nextEnrollment), action, req, env)
    ensures status == Answer(old(db.Snapshot()), Enrollments, action, req, env)
    ensures (db.Snapshot(), db.Next()) == Step(old(db.Snapshot()), old(db.Next()), Enrollments, action, req, env)
    ensures action == List ==> unchanged(db)
  {
    match action {
      case List => status := 200;
      case Create => status := EnrollmentCreateRoute(db, req, env);
      case Update => status := EnrollmentUpdateRoute(db, req, env);
      case Delete => status := EnrollmentDeleteRoute(db, req, env);
    }
  }

  /** POST /api/enrollments. */
  method EnrollmentCreateRoute(db: Db, req: Request, env: Env) returns (status: int)
    requires db.Valid()
    modifies db`enrollments, db`nextEnrollment
    ensures db.Valid()
    ensures status == EnrollmentAnswer(old(db.Snapshot()), Create, req, env)
    ensures (db.enrollments, db.nextEnrollment) == EnrollmentStep(old(db.Snapshot()), old(db.nextEnrollment), Create, req, env)
  {
    var r := EnrollmentController.CreateEnrollment(db, req, env.lib, env.today);
    status := r.Status();
  }

  /** PUT /api/enrollments/:id. */
  method EnrollmentUpdateRoute(db: Db, req: Request, env: Env) returns (status: int)
    requires db.Valid()
    modifies db`enrollments
    ensures db.Valid()
    ensures status == EnrollmentAnswer(old(db.Snapshot()), Update, req, env)
    ensures (db.enrollments, db.nextEnrollment) == EnrollmentStep(old(db.Snapshot()), old(db.nextEnrollment), Update, req, env)
  {
    var r := EnrollmentController.UpdateEnrollment(db, req, env.lib);
    status := r.Status();
  }

  /** DELETE /api/enrollments/:id. */
  method EnrollmentDeleteRoute(db: Db, req: Request, env: Env) returns (status: int)
    requires db.Valid()
    modifies db`enrollments
    ensures db.Valid()
    ensures status == EnrollmentAnswer(old(db.Snapshot()), Delete, req, env)
    ensures (db.enrollments, db.nextEnrollment) == EnrollmentStep(old(db.Snapshot()), old(db.nextEnrollment), Delete, req, env)
  {
    var r := EnrollmentController.DeleteEnrollment(db, req);
    status := r.Status();
  }

  /** The classes router behind the gate. */
  method ClassRouter(db: Db, action: Action, req: Request, env: Env) returns (status: int)
    requires db.Valid() && Routed(Classes, action)
    requires Authenticate(req.authorization, env.verify).Pass?
    modifies db`classes, db`nextClass
    ensures db.Valid()
    ensures status == ClassAnswer(old(db.Snapshot()), action, req, env)
    ensures (db.classes, db.nextClass) == ClassStep(old(db.Snapshot()), old(db.nextClass), action, req, env)
    ensures status == Answer(old(db.Snapshot()), Classes, action, req, env)
    ensures (db.Snapshot(), db.Next()) == Step(old(db.Snapshot()), old(db.Next()), Classes, action, req, env)
    ensures action == List ==> unchanged(db)
  {
    match action {
      case List => status := 200;
      case Create => status := ClassCreateRoute(db, req, env);
      case Update => status := ClassUpdateRoute(db, req, env);
      case Delete => status := ClassDeleteRoute(db, req, env);
    }
  }

  /** POST /api/classes. */
  method ClassCreateRoute(db: Db, req: Request, env: Env) returns (status: int)
    requires db.Valid()
    modifies db`classes, db`nextClass
    ensures db.Valid()
    ensures status == ClassAnswer(old(db.Snapshot()), Create, req, env)
    ensures (db.classes, db.nextClass) == ClassStep(old(db.Snapshot()), old(db.nextClass), Create, req, env)
  {
    var r := ClassController.CreateClass(db, req, env.lib);
    status := r.Status();
  }

  /** PUT /api/classes/:id. */
  method ClassUpdateRoute(db: Db, req: Request, env: Env) returns (status: int)
    requires db.Valid()
    modifies db`classes
    ensures db.Valid()
    ensures status == ClassAnswer(old(db.Snapshot()), Update, req, env)
    ensures (db.classes, db.nextClass) == ClassStep(old(db.Snapshot()), old(db.nextClass), Update, req, env)
  {
    var r := ClassController.UpdateClass(db, req, env.lib);
    status := r.Status();
  }

  /** DELETE /api/classes/:id. */
  method ClassDeleteRoute(db: Db, req: Request, env: Env) returns (status: int)
    requires db.Valid()
    modifies db`classes
    ensures db.Valid()
    ensures status == ClassAnswer(old(db.Snapshot()), Delete, req, env)
    ensures (db.classes, db.nextClass) == ClassStep(old(db.Snapshot()), old(db.nextClass), Delete, req, env)
  {
    var r := ClassController.DeleteClass(db, req);
    status := r.Status();
  }

  /** The courses router behind the gate. */
  method CourseRouter(db: Db, action: Action, req: Request, env: Env) returns (status: int)
    requires db.Valid() && Routed(Courses, action)
    requires Authenticate(req.authorization, env.verify).Pass?
    modifies db`courses, db`nextCourse
    ensures db.Valid()
    ensures status == CourseAnswer(old(db.Snapshot()), action, req, env)
    ensures (db.courses, db.nextCourse) == CourseStep(old(db.Snapshot()), old(db.nextCourse), action, req, env)
    ensures status == Answer(old(db.Snapshot()), Courses, action, req, env)
    ensures (db.Snapshot(), db.Next()) == Step(old(db.Snapshot()), old(db.Next()), Courses, action, req, env)
    ensures action == List ==> unchanged(db)
  {
    match action {
      case List => status := 200;
      case Create => status := CourseCreateRoute(db, req, env);
      case Update => status := CourseUpdateRoute(db, req, env);
      case Delete => status := CourseDeleteRoute(db, req, env);
    }
  }

  /** POST /api/courses. */
  method CourseCreateRoute(db: Db, req: Request, env: Env) returns (status: int)
    requires db.Valid()
    modifies db`courses, db`nextCourse
    ensures db.Valid()
    ensures status == CourseAnswer(old(db.Snapshot()), Create, req, env)
    ensures (db.courses, db.nextCourse) == CourseStep(old(db.Snapshot()), old(db.nextCourse), Create, req, env)
  {
    var r := CourseController.CreateCourse(db, req, env.lib);
    status := r.Status();
  }

  /** PUT /api/courses/:id. */
  method CourseUpdateRoute(db: Db, req: Request, env: Env) returns (status: int)
    requires db.Valid()
    modifies db`courses
    ensures db.Valid()
    ensures status == CourseAnswer(old(db.Snapshot()), Update, req, env)
    ensures (db.courses, db.nextCourse) == CourseStep(old(db.Snapshot()), old(db.nextCourse), Update, req, env)
  {
    var r := CourseController.UpdateCourse(db, req, env.lib);
    status := r.Status();
  }

  /** DELETE /api/courses/:id. */
  method CourseDeleteRoute(db: Db, req: Request, env: Env) returns (status: int)
    requires db.Valid()
    modifies db`courses
    ensures db.Valid()
    ensures status == CourseAnswer(old(db.Snapshot()), Delete, req, env)
    ensures (db.courses, db.nextCourse) == CourseStep(old(db.Snapshot()), old(db.nextCourse), Delete, req, env)
  {
    var r := CourseController.DeleteCourse(db, req);
    status := r.Status();
  }

  /** The students router behind the gate. */
  method StudentRouter(db: Db, action: Action, req: Request, env: Env) returns (status: int)
    requires db.Valid() && Routed(Students, action)
    requires Authenticate(req.authorization, env.verify).Pass?
    modifies db`students, db`nextStudent
    ensures db.Valid()
    ensures status == StudentAnswer(old(db.Snapshot()), action, req, env)
    ensures (db.students, db.nextStudent) == StudentStep(old(db.Snapshot()), old(db.nextStudent), action, req, env)
    ensures status == Answer(old(db.Snapshot()), Students, action, req, env)
    ensures (db.Snapshot(), db.Next()) == Step(old(db.Snapshot()), old(db.Next()), Students, action, req, env)
    ensures action == List ==> unchanged(db)
  {
    match action {
      case List => status := 200;
      case Create => status := StudentCreateRoute(db, req, env);
      case Update => status := StudentUpdateRoute(db, req, env);
      case Delete => status := StudentDeleteRoute(db, req, env);
    }
  }

  /** POST /api/students. */
  method StudentCreateRoute(db: Db, req: Request, env: Env) returns (status: int)
    requires db.Valid()
    modifies db`students, db`nextStudent
    ensures db.Valid()
    ensures status == StudentAnswer(old(db.Snapshot()), Create, req, env)
    ensures (db.students, db.nextStudent) == StudentStep(old(db.Snapshot()), old(db.nextStudent), Create, req, env)
  {
    var r := StudentController.CreateStudent(db, req, env.lib);
    status := r.Status();
  }

  /** PUT /api/students/:id. */
  method StudentUpdateRoute(db: Db, req: Request, env: Env) returns (status: int)
    requires db.Valid()
    modifies db`students
    ensures db.Valid()
    ensures status == StudentAnswer(old(db.Snapshot()), Update, req, env)
    ensures (db.students, db.nextStudent) == StudentStep(old(db.Snapshot()), old(db.nextStudent), Update, req, env)
  {
    var r := StudentController.UpdateStudent(db, req, env.lib);
    status := r.Status();
  }

  /** DELETE /api/students/:id. */
  method StudentDeleteRoute(db: Db, req: Request, env: Env) returns (status: int)
    requires db.Valid()
    modifies db`students
    ensures db.Valid()
    ensures status == StudentAnswer(old(db.Snapshot()), Delete, req, env)
    ensures (db.students, db.nextStudent) == StudentStep(old(db.Snapshot()), old(db.nextStudent), Delete, req, env)
  {
    var r := StudentController.DeleteStudent(db, req);
    status := r.Status();
  }

  /** The auth router: no gate. */
  method AuthRouter(db: Db, action: Action, req: Request, env: Env) returns (status: int)
    requires db.Valid() && Routed(Auth, action)
    modifies db`users, db`nextUser
    ensures db.Valid()
    ensures status == AuthAnswer(old(db.Snapshot()), action, req, env)
    ensures (db.users, db.nextUser) == AuthStep(old(db.Snapshot()), old(db.nextUser), action, req, env)
    ensures status == Answer(old(db.Snapshot()), Auth, action, req, env)
    ensures (db.Snapshot(), db.Next()) == Step(old(db.Snapshot()), old(db.Next()), Auth, action, req, env)
    ensures action == Login ==> unchanged(db)
  {
    match action {
      case Register => status := AuthRegisterRoute(db, req, env);
      case Login => status := AuthLoginRoute(db, req, env);
    }
  }

  /** POST /api/auth/register. */
  method AuthRegisterRoute(db: Db, req: Request, env: Env) returns (status: int)
    requires db.Valid()
    modifies db`users, db`nextUser
    ensures db.Valid()
    ensures status == AuthAnswer(old(db.Snapshot()), Register, req, env)
    ensures (db.users, db.nextUser) == AuthStep(old(db.Snapshot()), old(db.nextUser), Register, req, env)
  {
    var r := AuthController.Register(db, req, env.lib);
    status := r.Status();
  }

  /** POST /api/auth/login. */
  method AuthLoginRoute(db: Db, req: Request, env: Env) returns (status: int)
    requires db.Valid()
    ensures db.Valid()
    ensures status == AuthAnswer(old(db.Snapshot()), Login, req, env)
    ensures (db.users, db.nextUser) == AuthStep(old(db.Snapshot()), old(db.nextUser), Login, req, env)
    ensures unchanged(db)
  {
    var r := AuthController.Login(db, req, env.lib, env.checkPassword, env.sign);
    status := r.Status();
  }

  /** An enrollment request for student 1 in class 1. */
  function EnrollRequest(header: string): Request
  {
    Request(Some(header), map[], map["studentId" := "1", "classId" := "1"])
  }

  /** A request creating class "Turma A" of course 1 with capacity 2. */
  function ClassRequest(header: string): Request
  {
    Request(Some(header), map[],
            map["name" := "Turma A", "courseId" := "1", "startDate" := "2025-03-01",
                "endDate" := "2025-06-30", "capacity" := "2"])
  }

  lemma SmallNumerals()
    ensures IntText("1") && ParseInt("1") == 1 && IntText("2") && ParseInt("2") == 2
  {
    assert "1"[..0] == "" && "2"[..0] == "";
  }

  /** The class request passes its chain and makes a class of capacity 2. */
  lemma ClassRequestMakesClass(header: string, lib: Lib)
    requires lib.isIso8601("2025-03-01") && lib.isIso8601("2025-06-30")
    ensures Errors(Routes.ClassCreate, ClassRequest(header), lib) == []
    ensures NewClass(ClassRequest(header).body).Some? && NewClass(ClassRequest(header).body).value.capacity == 2
  {
    SmallNumerals();
    Routes.ClassCreateMeaning(ClassRequest(header), lib);
  }

  /** The enrollment request passes its chain and names class 1. */
  lemma EnrollRequestNamesClassOne(header: string, lib: Lib)
    ensures Errors(Routes.EnrollmentCreate, EnrollRequest(header), lib) == []
    ensures EnrollmentController.ClassIdOf(EnrollRequest(header)) == Some(1)
  {
    SmallNumerals();
    Routes.EnrollmentCreateMeaning(EnrollRequest(header), lib);
  }

  /** One admission into an existing class: the count of that class and the enrollment it adds. */
  method Admit(db: Db, req: Request, lib: Lib, today: Date, c: int) returns (status: int)
    requires db.Valid()
    requires Errors(Routes.EnrollmentCreate, req, lib) == [] && EnrollmentController.ClassIdOf(req) == Some(c)
    requires c in db.classes
    modifies db`enrollments, db`nextEnrollment
    ensures db.Valid()
    ensures status == 201 <==> ClassCount(old(db.enrollments), c) < db.classes[c].capacity
    ensures status != 201 ==> status == 400
    ensures ClassCount(db.enrollments, c) == ClassCount(old(db.enrollments), c) + (if status == 201 then 1 else 0)
    ensures status == 201 ==>
              && NewEnrollment(req.body, today).Some?
              && db.enrollments == old(db.enrollments)[old(db.nextEnrollment) := NewEnrollment(req.body, today).value]
              && db.nextEnrollment == old(db.nextEnrollment) + 1
    ensures status != 201 ==> db.enrollments == old(db.enrollments) && db.nextEnrollment == old(db.nextEnrollment)
  {
    var r := EnrollmentController.CreateEnrollment(db, req, lib, today);
    status := r.Status();
  }

  /**
   * The admission check end to end: in an empty store, a class of capacity 2
   * takes two enrollments (201, 201) and refuses the third (400).
   */
  method AdmissionScenario(env: Env, header: string)
    requires env.lib.isIso8601("2025-03-01") && env.lib.isIso8601("2025-06-30")
  {
    var db := new Db();
    ClassRequestMakesClass(header, env.lib);
    var c := ClassController.CreateClass(db, ClassRequest(header), env.lib);
    assert c.Created? && c.value.id == 1 && db.classes[1].capacity == 2;
    assert EnrollmentsOf(db.enrollments, 1) == map[];

    var req := EnrollRequest(header);
    EnrollRequestNamesClassOne(header, env.lib);
    var first := Admit(db, req, env.lib, "2025-03-01", 1);
    assert first == 201;
    var second := Admit(db, req, env.lib, "2025-03-01", 1);
    assert second == 201;
    var third := Admit(db, req, env.lib, "2025-03-01", 1);
    assert third == 400;
  }
}
