/**
 * The entity store: one table per entity, each a map from primary key to
 * record, and one auto-increment counter per table. `Db.Valid` is what every
 * handler keeps: keys are at least 1 and below their counter (so a new key
 * is never a reused one), every class has capacity at least 1, course codes
 * are unique, student emails and documents are unique, and user emails are
 * unique.
 *
 * The association the admission check relies on: the enrollments of a class
 * are those whose `classId` names it (`EnrollmentsOf`).
 */
module Store {
  import opened Http
  import opened Validation
  import opened Schemas

  predicate KeysBelow<T>(m: map<int, T>, next: int)
  {
    1 <= next && forall id :: id in m ==> 1 <= id < next
  }

  /** Both class chains demand a capacity of at least 1, so every stored class has one. */
  predicate PositiveCapacities(m: map<int, Class>)
  {
    forall id :: id in m ==> m[id].capacity >= 1
  }

  predicate UniqueCodes(m: map<int, Course>)
  {
    forall i, j :: i in m && j in m && i != j ==> m[i].code != m[j].code
  }

  predicate UniqueStudents(m: map<int, Student>)
  {
    forall i, j :: i in m && j in m && i != j ==> m[i].email != m[j].email && m[i].document != m[j].document
  }

  predicate UniqueUserEmails(m: map<int, User>)
  {
    forall i, j :: i in m && j in m && i != j ==> m[i].email != m[j].email
  }

  /** No course in `m` has this code: what the unique index on `code` demands of a new row. */
  predicate CodeFree(m: map<int, Course>, code: string)
  {
    forall id :: id in m ==> m[id].code != code
  }

  /** No student in `m` shares this student's email or document (both columns are unique). */
  predicate StudentFree(m: map<int, Student>, s: Student)
  {
    forall id :: id in m ==> m[id].email != s.email && m[id].document != s.document
  }

  predicate EmailFree(m: map<int, User>, email: string)
  {
    forall id :: id in m ==> m[id].email != email
  }

  /** Writing under key `id` a course whose code no other row holds keeps codes unique. */
  lemma ReplaceKeepsUniqueCodes(m: map<int, Course>, id: int, c: Course)
    requires UniqueCodes(m) && CodeFree(m - {id}, c.code)
    ensures UniqueCodes(m[id := c])
  {
    var m' := m[id := c];
    forall i, j | i in m' && j in m' && i != j
      ensures m'[i].code != m'[j].code
    {
      if i != id && j != id {
        assert m[i].code != m[j].code;
      } else if i == id {
        assert j in m - {id};
      } else {
        assert i in m - {id};
      }
    }
  }

  /** Writing under key `id` a student whose email and document no other row holds keeps both unique. */
  lemma ReplaceKeepsUniqueStudents(m: map<int, Student>, id: int, s: Student)
    requires UniqueStudents(m) && StudentFree(m - {id}, s)
    ensures UniqueStudents(m[id := s])
  {
    var m' := m[id := s];
    forall i, j | i in m' && j in m' && i != j
      ensures m'[i].email != m'[j].email && m'[i].document != m'[j].document
    {
      if i != id && j != id {
        assert m[i].email != m[j].email;
      } else if i == id {
        assert j in m - {id};
      } else {
        assert i in m - {id};
      }
    }
  }

  /** The primary key a request names in its path: `None` when absent or not integer text (no row matches). */
  function KeyOf(req: Request): Option<int>
  {
    ToInt(Field(req, InParams, "id"))
  }

  predicate Present<T>(m: map<int, T>, k: Option<int>)
  {
    k.Some? && k.value in m
  }

  function Lookup<T>(m: map<int, T>, k: Option<int>): (r: Option<T>)
    ensures r.Some? <==> Present(m, k)
    ensures r.Some? ==> r.value == m[k.value]
  {
    if Present(m, k) then Some(m[k.value]) else None
  }

  // ---- Associations ----

  /** `Class.hasMany(Enrollment, { foreignKey: 'classId' })`: the enrollments of class `c`, whatever their status. */
  function EnrollmentsOf(t: map<int, Enrollment>, c: int): (r: map<int, Enrollment>)
    ensures forall id :: id in r <==> id in t && t[id].classId == Some(c)
    ensures forall id :: id in r ==> r[id] == t[id]
  {
    map id | id in t && t[id].classId == Some(c) :: t[id]
  }

  /** The number of enrollments of class `c`: what the admission check compares with the capacity. */
  function ClassCount(t: map<int, Enrollment>, c: int): nat
  {
    |EnrollmentsOf(t, c)|
  }

  /** `Student.hasMany(Enrollment, { foreignKey: 'studentId' })`. */
  function EnrollmentsOfStudent(t: map<int, Enrollment>, s: int): (r: map<int, Enrollment>)
    ensures forall id :: id in r <==> id in t && t[id].studentId == Some(s)
    ensures forall id :: id in r ==> r[id] == t[id]
  {
    map id | id in t && t[id].studentId == Some(s) :: t[id]
  }

  /** `Course.hasMany(Class, { foreignKey: 'courseId' })`. */
  function ClassesOf(t: map<int, Class>, c: int): (r: map<int, Class>)
    ensures forall id :: id in r <==> id in t && t[id].courseId == Some(c)
    ensures forall id :: id in r ==> r[id] == t[id]
  {
    map id | id in t && t[id].courseId == Some(c) :: t[id]
  }

  /** A class joined with its course (`include: { model: Course, as: 'course' }`). */
  datatype ClassWithCourse = ClassWithCourse(classroom: Class, course: Option<Course>)

  /** The class key `k` names, joined with its course; `None` when `k` names no class. */
  function ClassWithCourseOf(classes: map<int, Class>, courses: map<int, Course>, k: Option<int>): (r: Option<ClassWithCourse>)
    ensures r.Some? <==> Present(classes, k)
    ensures r.Some? ==> r.value.classroom == classes[k.value]
    ensures r.Some? ==> (r.value.course.Some? <==> Present(courses, classes[k.value].courseId))
    ensures r.Some? && r.value.course.Some? ==> r.value.course.value == courses[classes[k.value].courseId.value]
  {
    if Present(classes, k) then Some(ClassWithCourse(classes[k.value], Lookup(courses, classes[k.value].courseId)))
    else None
  }

  /** Adding an enrollment of class `c` under a new key adds exactly one to that class's count. */
  lemma CountAfterInsert(t: map<int, Enrollment>, id: int, e: Enrollment, c: int)
    requires id !in t
    ensures e.classId == Some(c) ==> ClassCount(t[id := e], c) == ClassCount(t, c) + 1
    ensures e.classId != Some(c) ==> ClassCount(t[id := e], c) == ClassCount(t, c)
  {
    var before, after := EnrollmentsOf(t, c).Keys, EnrollmentsOf(t[id := e], c).Keys;
    if e.classId == Some(c) {
      assert after == before + {id};
    } else {
      assert after == before;
    }
  }

  /** Removing a key takes one off the count of the class it belonged to, and changes no other class's count. */
  lemma CountAfterRemove(t: map<int, Enrollment>, id: int, c: int)
    ensures id in t && t[id].classId == Some(c) ==> ClassCount(t - {id}, c) + 1 == ClassCount(t, c)
    ensures !(id in t && t[id].classId == Some(c)) ==> ClassCount(t - {id}, c) == ClassCount(t, c)
  {
    var before, after := EnrollmentsOf(t, c).Keys, EnrollmentsOf(t - {id}, c).Keys;
    if id in t && t[id].classId == Some(c) {
      assert before == after + {id};
    } else {
      assert after == before;
    }
  }

  /** Replacing a record by one in the same class (a change of status, say) leaves every count as it was. */
  lemma CountAfterReplaceInClass(t: map<int, Enrollment>, id: int, e: Enrollment, c: int)
    requires id in t && t[id].classId == e.classId
    ensures ClassCount(t[id := e], c) == ClassCount(t, c)
  {
    assert EnrollmentsOf(t[id := e], c).Keys == EnrollmentsOf(t, c).Keys;
  }

  /** Cancelled and completed enrollments still take a seat: the count does not look at the status. */
  lemma CountIgnoresStatus(t: map<int, Enrollment>, id: int, s: EnrollmentStatus, c: int)
    requires id in t
    ensures ClassCount(t[id := t[id].(status := s)], c) == ClassCount(t, c)
  {
    CountAfterReplaceInClass(t, id, t[id].(status := s), c);
  }

  /** The contents of every table at one moment. */
  datatype Tables = Tables(courses: map<int, Course>, students: map<int, Student>, classes: map<int, Class>,
                           enrollments: map<int, Enrollment>, users: map<int, User>)

  /** The auto-increment counter of every table at one moment: the key the next insert takes. */
  datatype Counters = Counters(nextCourse: int, nextStudent: int, nextClass: int, nextEnrollment: int, nextUser: int)

  /** The store: one map per table and one auto-increment counter per table. */
  class Db {
    var courses: map<int, Course>
    var students: map<int, Student>
    var classes: map<int, Class>
    var enrollments: map<int, Enrollment>
    var users: map<int, User>
    var nextCourse: int
    var nextStudent: int
    var nextClass: int
    var nextEnrollment: int
    var nextUser: int

    function Snapshot(): Tables
      reads this
    {
      Tables(courses, students, classes, enrollments, users)
    }

    function Next(): Counters
      reads this
    {
      Counters(nextCourse, nextStudent, nextClass, nextEnrollment, nextUser)
    }

    ghost predicate Valid()
      reads this
    {
      && KeysBelow(courses, nextCourse)
      && KeysBelow(students, nextStudent)
      && KeysBelow(classes, nextClass)
      && KeysBelow(enrollments, nextEnrollment)
      && KeysBelow(users, nextUser)
      && PositiveCapacities(classes)
      && UniqueCodes(courses)
      && UniqueStudents(students)
      && UniqueUserEmails(users)
    }

    /** An empty store whose counters all start at 1. */
    constructor ()
      ensures Valid()
      ensures courses == map[] && students == map[] && classes == map[] && enrollments == map[] && users == map[]
      ensures nextCourse == 1 && nextStudent == 1 && nextClass == 1 && nextEnrollment == 1 && nextUser == 1
    {
      courses, students, classes, enrollments, users := map[], map[], map[], map[], map[];
      nextCourse, nextStudent, nextClass, nextEnrollment, nextUser := 1, 1, 1, 1, 1;
    }
  }
}
