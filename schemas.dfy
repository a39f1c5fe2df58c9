/**
 * The entity records, their enumerations and defaults, and how the store
 * builds a record from a request body (`NewX`, the model's `create`) or
 * merges a body into a stored record (`MergeX`, the instance's `update`).
 *
 * A body field is text. An integer column takes integer text; an enum
 * column takes one of its names; anything else is a store rejection
 * (`None`), which the controllers turn into a 500. Fields a model does not
 * declare are ignored. Absent fields take the column default on create and
 * keep their stored value on update.
 */
module Schemas {
  import opened Http
  import opened Validation

  /** A date-only (or date-time) value, kept as the text the client sent. */
  type Date = string

  datatype CourseStatus = CourseActive | CourseInactive
  datatype EnrollmentStatus = Active | Cancelled | Completed
  datatype Role = Admin | Teacher | Assistant

  const CourseStatusNames: seq<string> := ["active", "inactive"]
  const EnrollmentStatusNames: seq<string> := ["active", "cancelled", "completed"]
  const RoleNames: seq<string> := ["admin", "teacher", "assistant"]

  function ParseCourseStatus(t: string): (r: Option<CourseStatus>)
    ensures r.Some? <==> t in CourseStatusNames
  {
    if t == "active" then Some(CourseActive)
    else if t == "inactive" then Some(CourseInactive)
    else None
  }

  function CourseStatusName(s: CourseStatus): (t: string)
    ensures t in CourseStatusNames && ParseCourseStatus(t) == Some(s)
  {
    match s
    case CourseActive => "active"
    case CourseInactive => "inactive"
  }

  function ParseEnrollmentStatus(t: string): (r: Option<EnrollmentStatus>)
    ensures r.Some? <==> t in EnrollmentStatusNames
  {
    if t == "active" then Some(Active)
    else if t == "cancelled" then Some(Cancelled)
    else if t == "completed" then Some(Completed)
    else None
  }

  function EnrollmentStatusName(s: EnrollmentStatus): (t: string)
    ensures t in EnrollmentStatusNames && ParseEnrollmentStatus(t) == Some(s)
  {
    match s
    case Active => "active"
    case Cancelled => "cancelled"
    case Completed => "completed"
  }

  function ParseRole(t: string): (r: Option<Role>)
    ensures r.Some? <==> t in RoleNames
  {
    if t == "admin" then Some(Admin)
    else if t == "teacher" then Some(Teacher)
    else if t == "assistant" then Some(Assistant)
    else None
  }

  function RoleName(r: Role): (t: string)
    ensures t in RoleNames && ParseRole(t) == Some(r)
  {
    match r
    case Admin => "admin"
    case Teacher => "teacher"
    case Assistant => "assistant"
  }

  /** A course; `code` is unique across courses (a store invariant). */
  datatype Course = Course(name: string, code: string, description: Option<string>, workload: int, status: CourseStatus)

  const DefaultWorkload := 60
  const DefaultCourseStatus := CourseActive

  /** A student; `email` and `document` are each unique across students (a store invariant). */
  datatype Student = Student(name: string, email: string, document: string, phone: Option<string>, birthDate: Option<Date>)

  /** A class (course offering); `courseId` is the foreign key the course association adds. */
  datatype Class = Class(name: string, startDate: Date, endDate: Date, capacity: int, courseId: Option<int>)

  const DefaultCapacity := 30

  /** An enrollment; `studentId` and `classId` are the foreign keys the associations add. */
  datatype Enrollment = Enrollment(enrollmentDate: Date, status: EnrollmentStatus, studentId: Option<int>, classId: Option<int>)

  const DefaultEnrollmentStatus := Active

  /** A user account; `role` is `None` when the account took the User model's default. */
  datatype User = User(name: string, email: string, password: string, role: Option<Role>)

  /** The claims a token carries. */
  datatype Claims = Claims(id: int, role: Option<Role>, email: string)

  /** What the auth replies show of a user: never the password. */
  datatype Profile = Profile(id: int, name: string, email: string, role: Option<Role>)

  function ProfileOf(id: int, u: User): Profile
  {
    Profile(id, u.name, u.email, u.role)
  }

  // ---- Columns: how the store reads one body field ----

  function TextColumn(b: Fields, f: string, absent: string): string
  {
    if f in b then b[f] else absent
  }

  function OptionalTextColumn(b: Fields, f: string, absent: Option<string>): Option<string>
  {
    if f in b then Some(b[f]) else absent
  }

  function IntColumn(b: Fields, f: string, absent: int): Option<int>
  {
    if f !in b then Some(absent)
    else if IntText(b[f]) then Some(ParseInt(b[f]))
    else None
  }

  /** A nullable foreign-key column: `Some(absent)` when the field is absent, `None` when the text is no integer. */
  function KeyColumn(b: Fields, f: string, absent: Option<int>): Option<Option<int>>
  {
    if f !in b then Some(absent)
    else if IntText(b[f]) then Some(Some(ParseInt(b[f])))
    else None
  }

  function CourseStatusColumn(b: Fields, f: string, absent: CourseStatus): Option<CourseStatus>
  {
    if f in b then ParseCourseStatus(b[f]) else Some(absent)
  }

  function EnrollmentStatusColumn(b: Fields, f: string, absent: EnrollmentStatus): Option<EnrollmentStatus>
  {
    if f in b then ParseEnrollmentStatus(b[f]) else Some(absent)
  }

  // ---- Course ----

  /** `Course.create(body)`: name and code are required; workload defaults to 60, status to active. */
  function NewCourse(b: Fields): (r: Option<Course>)
    ensures r.None? <==>
              "name" !in b || "code" !in b
              || ("workload" in b && !IntText(b["workload"])) || ("status" in b && b["status"] !in CourseStatusNames)
    ensures r.Some? ==> "name" in b && "code" in b && r.value.name == b["name"] && r.value.code == b["code"]
    ensures r.Some? && "workload" !in b ==> r.value.workload == DefaultWorkload
    ensures r.Some? && "workload" in b ==> r.value.workload == ParseInt(b["workload"])
    ensures r.Some? && "status" !in b ==> r.value.status == DefaultCourseStatus
    ensures r.Some? && "status" in b ==> ParseCourseStatus(b["status"]) == Some(r.value.status)
    ensures r.Some? && "description" !in b ==> r.value.description == None
    ensures r.Some? && "description" in b ==> r.value.description == Some(b["description"])
  {
    if "name" !in b || "code" !in b then None
    else
      var workload := IntColumn(b, "workload", DefaultWorkload);
      var status := CourseStatusColumn(b, "status", DefaultCourseStatus);
      if workload.None? || status.None? then None
      else Some(Course(b["name"], b["code"], OptionalTextColumn(b, "description", None), workload.value, status.value))
  }

  /**
   * `course.update(body)`: only the supplied fields change, each to what the
   * body says; the store refuses a workload that is no integer or a status
   * outside the enum.
   */
  function MergeCourse(c: Course, b: Fields): (r: Option<Course>)
    ensures r.None? <==> ("workload" in b && !IntText(b["workload"])) || ("status" in b && b["status"] !in CourseStatusNames)
    ensures r.Some? && "name" !in b ==> r.value.name == c.name
    ensures r.Some? && "name" in b ==> r.value.name == b["name"]
    ensures r.Some? && "code" !in b ==> r.value.code == c.code
    ensures r.Some? && "code" in b ==> r.value.code == b["code"]
    ensures r.Some? && "description" !in b ==> r.value.description == c.description
    ensures r.Some? && "description" in b ==> r.value.description == Some(b["description"])
    ensures r.Some? && "workload" !in b ==> r.value.workload == c.workload
    ensures r.Some? && "workload" in b ==> r.value.workload == ParseInt(b["workload"])
    ensures r.Some? && "status" !in b ==> r.value.status == c.status
    ensures r.Some? && "status" in b ==> ParseCourseStatus(b["status"]) == Some(r.value.status)
  {
    var workload := IntColumn(b, "workload", c.workload);
    var status := CourseStatusColumn(b, "status", c.status);
    if workload.None? || status.None? then None
    else Some(Course(TextColumn(b, "name", c.name), TextColumn(b, "code", c.code),
                     OptionalTextColumn(b, "description", c.description), workload.value, status.value))
  }

  /** A course as a JSON body that supplies every one of its fields. */
  function CourseFields(c: Course): Fields
  {
    map["name" := c.name, "code" := c.code, "workload" := ShowInt(c.workload), "status" := CourseStatusName(c.status)]
    + (if c.description.Some? then map["description" := c.description.value] else map[])
  }

  /** Creating a course from a body that spells out a course gives back that course. */
  lemma NewCourseFromFields(c: Course)
    ensures NewCourse(CourseFields(c)) == Some(c)
  {
    ShowIntParses(c.workload);
  }

  /**
   * An update that supplies every field replaces the whole record, whatever
   * it was (a body cannot null a column, hence the requires).
   */
  lemma MergeCourseFromFields(old_: Course, c: Course)
    requires c.description.Some? || old_.description == None
    ensures MergeCourse(old_, CourseFields(c)) == Some(c)
  {
    ShowIntParses(c.workload);
  }

  /** An update with an empty body changes nothing. */
  lemma MergeCourseEmpty(c: Course)
    ensures MergeCourse(c, map[]) == Some(c)
  {
  }

  // ---- Student ----

  /**
   * `Student.create(body)`: name, email and document are required, and the
   * model's own `isEmail` validation rejects a malformed email.
   */
  function NewStudent(b: Fields, lib: Lib): (r: Option<Student>)
    ensures r.None? <==> "name" !in b || "email" !in b || "document" !in b || !Holds(IsEmail, b["email"], lib)
    ensures r.Some? ==> "name" in b && "email" in b && "document" in b
    ensures r.Some? ==> r.value.name == b["name"] && r.value.email == b["email"] && r.value.document == b["document"]
    ensures r.Some? ==> Holds(IsEmail, r.value.email, lib)
    ensures r.Some? && "phone" !in b ==> r.value.phone == None
    ensures r.Some? && "phone" in b ==> r.value.phone == Some(b["phone"])
    ensures r.Some? && "birthDate" !in b ==> r.value.birthDate == None
    ensures r.Some? && "birthDate" in b ==> r.value.birthDate == Some(b["birthDate"])
  {
    if "name" !in b || "email" !in b || "document" !in b || !Holds(IsEmail, b["email"], lib) then None
    else Some(Student(b["name"], b["email"], b["document"],
                      OptionalTextColumn(b, "phone", None), OptionalTextColumn(b, "birthDate", None)))
  }

  /**
   * `student.update(body)`: only the supplied fields change, each to what the
   * body says. Sequelize validates only the attributes an update changes, so
   * the model's `isEmail` looks at the email only when the body sends a new one.
   */
  function MergeStudent(s: Student, b: Fields, lib: Lib): (r: Option<Student>)
    ensures r.None? <==> "email" in b && b["email"] != s.email && !Holds(IsEmail, b["email"], lib)
    ensures r.Some? && r.value.email != s.email ==> Holds(IsEmail, r.value.email, lib)
    ensures r.Some? && "name" !in b ==> r.value.name == s.name
    ensures r.Some? && "name" in b ==> r.value.name == b["name"]
    ensures r.Some? && "email" !in b ==> r.value.email == s.email
    ensures r.Some? && "email" in b ==> r.value.email == b["email"]
    ensures r.Some? && "document" !in b ==> r.value.document == s.document
    ensures r.Some? && "document" in b ==> r.value.document == b["document"]
    ensures r.Some? && "phone" !in b ==> r.value.phone == s.phone
    ensures r.Some? && "phone" in b ==> r.value.phone == Some(b["phone"])
    ensures r.Some? && "birthDate" !in b ==> r.value.birthDate == s.birthDate
    ensures r.Some? && "birthDate" in b ==> r.value.birthDate == Some(b["birthDate"])
  {
    var email := TextColumn(b, "email", s.email);
    if email != s.email && !Holds(IsEmail, email, lib) then None
    else Some(Student(TextColumn(b, "name", s.name), email, TextColumn(b, "document", s.document),
                      OptionalTextColumn(b, "phone", s.phone), OptionalTextColumn(b, "birthDate", s.birthDate)))
  }

  function StudentFields(s: Student): Fields
  {
    map["name" := s.name, "email" := s.email, "document" := s.document]
    + (if s.phone.Some? then map["phone" := s.phone.value] else map[])
    + (if s.birthDate.Some? then map["birthDate" := s.birthDate.value] else map[])
  }

  lemma NewStudentFromFields(s: Student, lib: Lib)
    requires Holds(IsEmail, s.email, lib)
    ensures NewStudent(StudentFields(s), lib) == Some(s)
  {
  }

  lemma MergeStudentFromFields(old_: Student, s: Student, lib: Lib)
    requires s.email == old_.email || Holds(IsEmail, s.email, lib)
    requires s.phone.Some? || old_.phone == None
    requires s.birthDate.Some? || old_.birthDate == None
    ensures MergeStudent(old_, StudentFields(s), lib) == Some(s)
  {
  }

  /** An update with an empty body leaves the student unchanged. */
  lemma MergeStudentEmpty(s: Student, lib: Lib)
    ensures MergeStudent(s, map[], lib) == Some(s)
  {
  }

  // ---- Class ----

  /** `Class.create(body)`: name and both dates are required; capacity defaults to 30. */
  function NewClass(b: Fields): (r: Option<Class>)
    ensures r.None? <==>
              "name" !in b || "startDate" !in b || "endDate" !in b
              || ("capacity" in b && !IntText(b["capacity"])) || ("courseId" in b && !IntText(b["courseId"]))
    ensures r.Some? ==> "name" in b && "startDate" in b && "endDate" in b
    ensures r.Some? ==> r.value.name == b["name"] && r.value.startDate == b["startDate"] && r.value.endDate == b["endDate"]
    ensures r.Some? && "capacity" !in b ==> r.value.capacity == DefaultCapacity
    ensures r.Some? && "capacity" in b ==> IntText(b["capacity"]) && r.value.capacity == ParseInt(b["capacity"])
    ensures r.Some? && "courseId" !in b ==> r.value.courseId == None
    ensures r.Some? && "courseId" in b ==> r.value.courseId == Some(ParseInt(b["courseId"]))
  {
    if "name" !in b || "startDate" !in b || "endDate" !in b then None
    else
      var capacity := IntColumn(b, "capacity", DefaultCapacity);
      var courseId := KeyColumn(b, "courseId", None);
      if capacity.None? || courseId.None? then None
      else Some(Class(b["name"], b["startDate"], b["endDate"], capacity.value, courseId.value))
  }

  /**
   * `classroom.update(body)`: only the supplied fields change, each to what
   * the body says; nothing compares capacity with enrollments. The store
   * refuses a capacity or courseId that is no integer.
   */
  function MergeClass(c: Class, b: Fields): (r: Option<Class>)
    ensures r.None? <==> ("capacity" in b && !IntText(b["capacity"])) || ("courseId" in b && !IntText(b["courseId"]))
    ensures r.Some? && "name" !in b ==> r.value.name == c.name
    ensures r.Some? && "name" in b ==> r.value.name == b["name"]
    ensures r.Some? && "startDate" !in b ==> r.value.startDate == c.startDate
    ensures r.Some? && "startDate" in b ==> r.value.startDate == b["startDate"]
    ensures r.Some? && "endDate" !in b ==> r.value.endDate == c.endDate
    ensures r.Some? && "endDate" in b ==> r.value.endDate == b["endDate"]
    ensures r.Some? && "capacity" !in b ==> r.value.capacity == c.capacity
    ensures r.Some? && "capacity" in b ==> IntText(b["capacity"]) && r.value.capacity == ParseInt(b["capacity"])
    ensures r.Some? && "courseId" !in b ==> r.value.courseId == c.courseId
    ensures r.Some? && "courseId" in b ==> r.value.courseId == Some(ParseInt(b["courseId"]))
  {
    var capacity := IntColumn(b, "capacity", c.capacity);
    var courseId := KeyColumn(b, "courseId", c.courseId);
    if capacity.None? || courseId.None? then None
    else Some(Class(TextColumn(b, "name", c.name), TextColumn(b, "startDate", c.startDate),
                    TextColumn(b, "endDate", c.endDate), capacity.value, courseId.value))
  }

  function ClassFields(c: Class): Fields
  {
    map["name" := c.name, "startDate" := c.startDate, "endDate" := c.endDate, "capacity" := ShowInt(c.capacity)]
    + (if c.courseId.Some? then map["courseId" := ShowInt(c.courseId.value)] else map[])
  }

  lemma NewClassFromFields(c: Class)
    ensures NewClass(ClassFields(c)) == Some(c)
  {
    ShowIntParses(c.capacity);
    if c.courseId.Some? {
      ShowIntParses(c.courseId.value);
    }
  }

  lemma MergeClassFromFields(old_: Class, c: Class)
    requires c.courseId.Some? || old_.courseId == None
    ensures MergeClass(old_, ClassFields(c)) == Some(c)
  {
    ShowIntParses(c.capacity);
    if c.courseId.Some? {
      ShowIntParses(c.courseId.value);
    }
  }

  lemma MergeClassEmpty(c: Class)
    ensures MergeClass(c, map[]) == Some(c)
  {
  }

  // ---- Enrollment ----

  /** `Enrollment.create(body)`: the date defaults to `today`, the status to active. */
  function NewEnrollment(b: Fields, today: Date): (r: Option<Enrollment>)
    ensures r.None? <==>
              ("status" in b && b["status"] !in EnrollmentStatusNames)
              || ("studentId" in b && !IntText(b["studentId"])) || ("classId" in b && !IntText(b["classId"]))
    ensures r.Some? && "enrollmentDate" !in b ==> r.value.enrollmentDate == today
    ensures r.Some? && "enrollmentDate" in b ==> r.value.enrollmentDate == b["enrollmentDate"]
    ensures r.Some? && "status" !in b ==> r.value.status == DefaultEnrollmentStatus
    ensures r.Some? && "status" in b ==> ParseEnrollmentStatus(b["status"]) == Some(r.value.status)
    ensures r.Some? && "studentId" !in b ==> r.value.studentId == None
    ensures r.Some? && "studentId" in b ==> r.value.studentId == Some(ParseInt(b["studentId"]))
    ensures r.Some? && "classId" !in b ==> r.value.classId == None
    ensures r.Some? && "classId" in b ==> r.value.classId == Some(ParseInt(b["classId"]))
  {
    var status := EnrollmentStatusColumn(b, "status", DefaultEnrollmentStatus);
    var studentId := KeyColumn(b, "studentId", None);
    var classId := KeyColumn(b, "classId", None);
    if status.None? || studentId.None? || classId.None? then None
    else Some(Enrollment(TextColumn(b, "enrollmentDate", today), status.value, studentId.value, classId.value))
  }

  /**
   * `enrollment.update(body)`: only the supplied fields change, each to what
   * the body says. The store refuses a status outside the enum and a
   * studentId or classId that is no integer.
   */
  function MergeEnrollment(e: Enrollment, b: Fields): (r: Option<Enrollment>)
    ensures r.None? <==>
              ("status" in b && b["status"] !in EnrollmentStatusNames)
              || ("studentId" in b && !IntText(b["studentId"])) || ("classId" in b && !IntText(b["classId"]))
    ensures r.Some? && "enrollmentDate" !in b ==> r.value.enrollmentDate == e.enrollmentDate
    ensures r.Some? && "enrollmentDate" in b ==> r.value.enrollmentDate == b["enrollmentDate"]
    ensures r.Some? && "status" !in b ==> r.value.status == e.status
    ensures r.Some? && "status" in b ==> ParseEnrollmentStatus(b["status"]) == Some(r.value.status)
    ensures r.Some? && "studentId" !in b ==> r.value.studentId == e.studentId
    ensures r.Some? && "studentId" in b ==> r.value.studentId == Some(ParseInt(b["studentId"]))
    ensures r.Some? && "classId" !in b ==> r.value.classId == e.classId
    ensures r.Some? && "classId" in b ==> r.value.classId == Some(ParseInt(b["classId"]))
  {
    var status := EnrollmentStatusColumn(b, "status", e.status);
    var studentId := KeyColumn(b, "studentId", e.studentId);
    var classId := KeyColumn(b, "classId", e.classId);
    if status.None? || studentId.None? || classId.None? then None
    else Some(Enrollment(TextColumn(b, "enrollmentDate", e.enrollmentDate), status.value, studentId.value, classId.value))
  }

  function EnrollmentFields(e: Enrollment): Fields
  {
    map["enrollmentDate" := e.enrollmentDate, "status" := EnrollmentStatusName(e.status)]
    + (if e.studentId.Some? then map["studentId" := ShowInt(e.studentId.value)] else map[])
    + (if e.classId.Some? then map["classId" := ShowInt(e.classId.value)] else map[])
  }

  lemma NewEnrollmentFromFields(e: Enrollment, today: Date)
    ensures NewEnrollment(EnrollmentFields(e), today) == Some(e)
  {
    if e.studentId.Some? {
      ShowIntParses(e.studentId.value);
    }
    if e.classId.Some? {
      ShowIntParses(e.classId.value);
    }
  }

  lemma MergeEnrollmentEmpty(e: Enrollment)
    ensures MergeEnrollment(e, map[]) == Some(e)
  {
  }

  /** Changing only the status of an enrollment keeps it in the same class. */
  lemma MergeStatusKeepsClass(e: Enrollment, s: EnrollmentStatus)
    ensures MergeEnrollment(e, map["status" := EnrollmentStatusName(s)]) == Some(e.(status := s))
  {
  }

  // ---- User ----

  /** `User.create({ name, email, password, role })`; an absent role is left to the model's default. */
  function NewUser(b: Fields): (r: Option<User>)
    ensures r.None? <==> "name" !in b || "email" !in b || "password" !in b || ("role" in b && b["role"] !in RoleNames)
    ensures r.Some? ==> "name" in b && "email" in b && "password" in b
    ensures r.Some? ==> r.value.name == b["name"] && r.value.email == b["email"] && r.value.password == b["password"]
    ensures r.Some? && "role" !in b ==> r.value.role == None
    ensures r.Some? && "role" in b ==> r.value.role.Some? && ParseRole(b["role"]) == r.value.role
  {
    if "name" !in b || "email" !in b || "password" !in b then None
    else if "role" in b && ParseRole(b["role"]).None? then None
    else Some(User(b["name"], b["email"], b["password"], if "role" in b then ParseRole(b["role"]) else None))
  }
}
