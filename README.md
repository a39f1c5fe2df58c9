# Sistema-Turmas-Matriculas: the request-decision layer in Dafny

Sistema-Turmas-Matriculas is a course, class and enrollment management backend. It runs on Express with a Sequelize store. This project models how its backend decides each request, over an in-memory store.

A request first meets the `authenticate` gate, which every resource router except the auth router installs. It then meets its route's validator chain. Finally a controller looks rows up, compares, and changes at most one row. The reply is either a status code with a body, or the one refusal or error the handler chose.

The central operation is the admission check in `createEnrollment`:

- The handler looks the class up.
- It counts every enrollment of that class, whatever the enrollment's status.
- It refuses with 400 "Capacidade da turma atingida" when the count has reached the capacity.
- Otherwise it inserts exactly one enrollment.

The capacity bound holds at admission time only. `updateClass` may lower a capacity below the current count. `updateEnrollment` may move an enrollment into a full class. Both facts are proved as lemmas.

Files, one module each:

| file | module | what it holds |
|---|---|---|
| `http.dfy` | `Http` | requests (header, path params, body fields as text), replies and their status codes |
| `validation.dfy` | `Validation` | the validator checks as data (`Rule`, `Check`), `Errors` (what `validationResult(req).array()` reports), integer text |
| `schemas.dfy` | `Schemas` | the records, enums and defaults of the model files; how the store casts a body into a new or merged record |
| `routes.dfy` | `Routes` | every router's chain, rule for rule, and a lemma saying in plain terms what passing it means |
| `store.dfy` | `Store` | class `Db`: one map per table, one auto-increment counter per table, the invariant `Valid`, the associations and the class count |
| `enrollment_controller.dfy`, `class_controller.dfy`, `course_controller.dfy`, `student_controller.dfy`, `auth_controller.dfy` | one per controller | each handler as a method on `Db` (or a function, for the listings) |
| `auth_middleware.dfy` | `AuthMiddleware` | `authenticate`, with JavaScript's `split(' ')` |
| `api.dfy` | `Api` | the route table: the gate, then a dispatch to a router and one method per route; `Answer`, the status code every request gets, and `Step`, the tables and counters after it; an end-to-end admission scenario |

The store models the database. Primary keys are at least 1 and below an auto-increment counter. Course codes, student emails and student documents are unique columns: a write that breaks one is a store rejection, which the handlers answer with 500 (`Internal`). Every stored class has a capacity of at least 1, because both class chains demand it. `Db.Valid` states all of this, and every handler is proved to keep it.

## Model

| member | source | states |
|---|---|---|
| Validation.Errors | Sistema-Turmas-Matriculas-main/backend/src/controllers/enrollmentController.js:24-27 | the reported error list is never longer than the chain |
| Validation.ErrorsEmptyIff | Sistema-Turmas-Matriculas-main/backend/src/controllers/enrollmentController.js:24-27 | a request gets no errors (and so passes on to the handler) exactly when every rule of its chain passes |
| Validation.ErrorsReportFailing | Sistema-Turmas-Matriculas-main/backend/src/controllers/enrollmentController.js:26 | an error names a location and field exactly when some failing rule of the chain is about that field |
| Validation.ErrorsIgnoreHeader | Sistema-Turmas-Matriculas-main/backend/src/controllers/enrollmentController.js:24-27 | the validation errors of a request do not depend on its Authorization header |
| Validation.ShowIntParses | Sistema-Turmas-Matriculas-main/backend/src/routes/enrollmentRoutes.js:61-62 | every integer, written in decimal, is text that `isInt` accepts and that reads back as that integer |
| Validation.IntAtLeastOnNumbers | Sistema-Turmas-Matriculas-main/backend/src/routes/enrollmentRoutes.js:61-62 | an integer in the body passes `isInt({ min })` exactly when it is at least `min` |
| Validation.MeasuredLength | backend/src/routes/authRoutes.js:50 | the length `isLength` measures is at most the number of characters, and equal to it for text without a variation selector |
| Routes.EnrollmentCreateMeaning | Sistema-Turmas-Matriculas-main/backend/src/routes/enrollmentRoutes.js:60-64 | POST /enrollments passes exactly when studentId and classId are integers ≥ 1 and a status sent is active, cancelled or completed |
| Routes.EnrollmentUpdateMeaning | Sistema-Turmas-Matriculas-main/backend/src/routes/enrollmentRoutes.js:100-103 | PUT /enrollments/:id passes exactly when the id is an integer ≥ 1 and a status sent is one of the three |
| Routes.ClassCreateMeaning | Sistema-Turmas-Matriculas-main/backend/src/routes/classRoutes.js:65-71 | POST /classes passes exactly when the name is filled, courseId and capacity are integers ≥ 1 and both dates are ISO 8601; the dates' order is not checked |
| Routes.ClassUpdateMeaning | Sistema-Turmas-Matriculas-main/backend/src/routes/classRoutes.js:103-108 | PUT /classes/:id passes exactly when the id is an integer ≥ 1, and any dates or capacity sent are ISO 8601 or an integer ≥ 1 |
| Routes.CourseCreateMeaning | backend/src/routes/courseRoutes.js:62-67 | POST /courses passes exactly when name and code are filled, workload is an integer ≥ 1, and a status sent is active or inactive |
| Routes.CourseUpdateMeaning | backend/src/routes/courseRoutes.js:107-112 | PUT /courses/:id passes exactly when the id is integer text (no lower bound), and any name, workload or status sent is valid |
| Routes.StudentCreateMeaning | backend/src/routes/studentRoutes.js:64-69 | POST /students passes exactly when name and document are filled, the email is valid, and a birth date sent is ISO 8601 |
| Routes.StudentUpdateMeaning | backend/src/routes/studentRoutes.js:101-105 | PUT /students/:id passes exactly when the id is integer text, and any email or birth date sent is valid |
| Routes.RegisterMeaning | backend/src/routes/authRoutes.js:47-52 | register passes exactly when the name is filled, the email is valid, the password measures at least 6 as `isLength` counts, and a role sent is admin, teacher or assistant |
| Routes.LoginMeaning | backend/src/routes/authRoutes.js:82-85 | login passes exactly when the email is valid and the password is not empty |
| Routes.DeleteChainsRejectNonIntegers | Sistema-Turmas-Matriculas-main/backend/src/routes/classRoutes.js:134 | each DELETE chain reports exactly one error, on the path id, for the id `abc` |
| Routes.EmptyEnrollmentBody | Sistema-Turmas-Matriculas-main/backend/src/routes/enrollmentRoutes.js:60-64 | an empty enrollment body gets exactly the studentId and the classId errors, in that order |
| Schemas.ParseCourseStatus | Sistema-Turmas-Matriculas-main/backend/src/models/Course.js:28-32 | the status column takes a text exactly when it is one of the two enum names |
| Schemas.CourseStatusName | Sistema-Turmas-Matriculas-main/backend/src/models/Course.js:28-32 | every course status has an enum name, and that name reads back as the same status |
| Schemas.ParseEnrollmentStatus | backend/src/models/Enrollment.js:15-18 | the status column takes a text exactly when it is one of the three enum names |
| Schemas.EnrollmentStatusName | backend/src/models/Enrollment.js:15-18 | every enrollment status has an enum name, and that name reads back as the same status |
| Schemas.ParseRole | backend/src/routes/authRoutes.js:51 | a role text is taken exactly when it is admin, teacher or assistant |
| Schemas.RoleName | backend/src/routes/authRoutes.js:51 | every role has a name the role check accepts, and that name reads back as the same role |
| Schemas.NewCourse | Sistema-Turmas-Matriculas-main/backend/src/models/Course.js:10-32 | the store refuses a create exactly when name or code is missing, or a workload sent is no integer, or a status sent is outside the enum; a created course stores every field sent (the integer a workload spells, the status a status names), and an absent workload becomes 60, an absent status active, an absent description null |
| Schemas.MergeCourse | backend/src/controllers/courseController.js:45 | the store refuses an update exactly when a workload sent is no integer or a status sent is outside the enum; otherwise every column the body sends takes the value sent, and every other column keeps its stored value |
| Schemas.NewCourseFromFields | Sistema-Turmas-Matriculas-main/backend/src/models/Course.js:10-32 | creating from a body that spells out a course gives back that course |
| Schemas.MergeCourseFromFields | backend/src/controllers/courseController.js:45 | an update that sends every field stores exactly the course sent, whatever the old one was (a body cannot null a column) |
| Schemas.MergeCourseEmpty | backend/src/controllers/courseController.js:45 | an update with an empty body changes nothing |
| Schemas.NewStudent | Sistema-Turmas-Matriculas-main/backend/src/models/Student.js:10-34 | the store refuses a create exactly when name, email or document is missing or the email fails the model's own `isEmail`; a created student stores the name, email, document, phone and birth date sent, with an absent phone or birth date null |
| Schemas.MergeStudent | Sistema-Turmas-Matriculas-main/backend/src/controllers/studentController.js:55 | the store refuses an update exactly when the body sends a new email that fails `isEmail` (only changed attributes are validated); otherwise every column the body sends takes the value sent, and every other column keeps its stored value |
| Schemas.NewStudentFromFields | Sistema-Turmas-Matriculas-main/backend/src/models/Student.js:10-34 | creating from a body that spells out a student with a valid email gives back that student |
| Schemas.MergeStudentFromFields | Sistema-Turmas-Matriculas-main/backend/src/controllers/studentController.js:55 | an update that sends every field stores exactly the student sent |
| Schemas.MergeStudentEmpty | Sistema-Turmas-Matriculas-main/backend/src/controllers/studentController.js:55 | an update with an empty body changes nothing, whatever the stored email |
| Schemas.NewClass | Sistema-Turmas-Matriculas-main/backend/src/models/Class.js:10-26 | the store refuses a create exactly when the name or a date is missing or a capacity or courseId sent is no integer; a created class stores the name, dates and courseId sent (an absent courseId null), an absent capacity becomes 30, and a capacity sent is stored as the integer it spells, with no lower bound |
| Schemas.MergeClass | Sistema-Turmas-Matriculas-main/backend/src/controllers/classController.js:54 | the store refuses an update exactly when a capacity or courseId sent is no integer; otherwise name, dates, capacity and courseId each take the value sent, or keep the stored one when not sent |
| Schemas.NewClassFromFields | Sistema-Turmas-Matriculas-main/backend/src/models/Class.js:10-26 | creating from a body that spells out a class gives back that class |
| Schemas.MergeClassFromFields | Sistema-Turmas-Matriculas-main/backend/src/controllers/classController.js:54 | an update that sends every field stores exactly the class sent |
| Schemas.MergeClassEmpty | Sistema-Turmas-Matriculas-main/backend/src/controllers/classController.js:54 | an update with an empty body changes nothing |
| Schemas.NewEnrollment | backend/src/models/Enrollment.js:10-18 | the store refuses a create exactly when a status sent is outside the enum or a studentId or classId sent is no integer; a created enrollment stores the date, status, studentId and classId sent, the date defaults to today, the status to active, and an absent studentId or classId is null |
| Schemas.MergeEnrollment | Sistema-Turmas-Matriculas-main/backend/src/controllers/enrollmentController.js:66 | the store refuses an update exactly when a status sent is outside the enum or an id sent is no integer; otherwise date, status, studentId and classId each take the value sent, or keep the stored one when not sent |
| Schemas.NewEnrollmentFromFields | backend/src/models/Enrollment.js:10-18 | creating from a body that spells out an enrollment gives back that enrollment |
| Schemas.MergeEnrollmentEmpty | Sistema-Turmas-Matriculas-main/backend/src/controllers/enrollmentController.js:66 | an update with an empty body changes nothing |
| Schemas.MergeStatusKeepsClass | Sistema-Turmas-Matriculas-main/backend/src/controllers/enrollmentController.js:66 | an update that sends only a status changes that status and nothing else |
| Schemas.NewUser | Sistema-Turmas-Matriculas-main/backend/src/controllers/authController.js:21 | a create is refused exactly when name, email or password is missing or a role sent is unknown; a created user has the name, email, password and role sent, and an absent role is left to the model's default |
| Store.CountAfterInsert | Sistema-Turmas-Matriculas-main/backend/src/controllers/enrollmentController.js:39-43 | a new enrollment under a fresh key adds one to its own class's count and changes no other class's count |
| Store.CountAfterRemove | Sistema-Turmas-Matriculas-main/backend/src/controllers/enrollmentController.js:84 | removing an enrollment takes one off its class's count and changes no other count |
| Store.CountAfterReplaceInClass | Sistema-Turmas-Matriculas-main/backend/src/controllers/enrollmentController.js:66 | rewriting an enrollment within the same class leaves every count as it was |
| Store.CountIgnoresStatus | Sistema-Turmas-Matriculas-main/backend/src/controllers/enrollmentController.js:33-39 | cancelled and completed enrollments still count: a status change moves no count |
| Store.ReplaceKeepsUniqueCodes | Sistema-Turmas-Matriculas-main/backend/src/models/Course.js:14-18 | writing a course whose code no other row holds keeps codes unique |
| Store.ReplaceKeepsUniqueStudents | Sistema-Turmas-Matriculas-main/backend/src/models/Student.js:14-26 | writing a student whose email and document no other row holds keeps both unique |
| Store.Db.constructor | Sistema-Turmas-Matriculas-main/backend/src/database/index.js:13-45 | an empty store, every counter at 1, satisfying the invariant |
| EnrollmentController.ListEnrollments | Sistema-Turmas-Matriculas-main/backend/src/controllers/enrollmentController.js:7-17 | every enrollment is listed once, unchanged, with the stored student and the stored class (with its stored course) its keys name, each absent exactly when its key names no row |
| EnrollmentController.ValidBodyMakesEnrollment | Sistema-Turmas-Matriculas-main/backend/src/controllers/enrollmentController.js:31-43 | a body that passes the POST chain names a class id ≥ 1 and always makes an enrollment of that class |
| EnrollmentController.CreateEnrollment | Sistema-Turmas-Matriculas-main/backend/src/controllers/enrollmentController.js:23-48 | 400 with the chain's errors; else 404 exactly when the class is missing; else 400 "capacity reached" exactly when the count is at least the capacity; else 201 with exactly one new enrollment under a fresh key, its class's count up by one and at most the capacity; every refusal changes nothing |
| EnrollmentController.UpdateEnrollment | Sistema-Turmas-Matriculas-main/backend/src/controllers/enrollmentController.js:50-71 | exactly one of: 400 when the chain fails; 404 when the id names no enrollment; 500 when the store rejects the merge; 200 otherwise, with only that enrollment replaced by the merge and no capacity check |
| EnrollmentController.DeleteEnrollment | Sistema-Turmas-Matriculas-main/backend/src/controllers/enrollmentController.js:73-89 | 204 and exactly that key removed when the id names an enrollment, otherwise 404 and nothing changed; never 400 |
| EnrollmentController.FullClassStaysFull | Sistema-Turmas-Matriculas-main/backend/src/controllers/enrollmentController.js:39-41 | once a class's count reaches its capacity, no insertion makes room again |
| EnrollmentController.AdmissionKeepsBound | Sistema-Turmas-Matriculas-main/backend/src/controllers/enrollmentController.js:39-44 | admitting into a class with room keeps its count at most its capacity |
| EnrollmentController.UpdateMayOverfillClass | Sistema-Turmas-Matriculas-main/backend/src/controllers/enrollmentController.js:66 | an update can move an enrollment into a full class, which then holds more enrollments than its capacity |
| ClassController.ListClasses | Sistema-Turmas-Matriculas-main/backend/src/controllers/classController.js:7-16 | every class is listed once with its stored course, and with exactly the enrollments its count counts, each unchanged and joined with the stored student it names |
| ClassController.ValidBodyMakesClass | Sistema-Turmas-Matriculas-main/backend/src/controllers/classController.js:31 | a body that passes the POST chain always makes a class, of capacity ≥ 1, in the course it names |
| ClassController.CreateClass | Sistema-Turmas-Matriculas-main/backend/src/controllers/classController.js:23-36 | 400 with the chain's errors and nothing created; otherwise 201 with exactly one new class under a fresh key, of capacity at least 1 |
| ClassController.UpdateClass | Sistema-Turmas-Matriculas-main/backend/src/controllers/classController.js:38-59 | exactly one of: 400 when the chain fails; 404 when the id names no class; 500 when the store rejects the merge; 200 otherwise, with only that class replaced, its capacity still ≥ 1 but never compared with the count |
| ClassController.DeleteClass | Sistema-Turmas-Matriculas-main/backend/src/controllers/classController.js:61-77 | 204 and exactly that key removed when the id names a class, otherwise 404 and nothing changed |
| ClassController.CapacityMayDropBelowCount | Sistema-Turmas-Matriculas-main/backend/src/controllers/classController.js:54 | an update of a stored class whose body sets capacity 1 is stored with capacity 1 even when two or more enrollments name that class |
| CourseController.ListCourses | backend/src/controllers/courseController.js:7 | every course is listed once, with exactly the stored classes whose courseId names it |
| CourseController.ValidBodyMakesCourse | backend/src/controllers/courseController.js:22 | a body that passes the POST chain always makes a course with workload ≥ 1 |
| CourseController.ValidBodyMergesCourse | backend/src/controllers/courseController.js:45 | a body that passes the PUT chain always merges into any course |
| CourseController.CreateCourse | backend/src/controllers/courseController.js:14-27 | exactly one of: 400 when the chain fails; 500 when another course holds the code; 201 otherwise, with one new course under a fresh key; refusals change nothing |
| CourseController.UpdateCourse | backend/src/controllers/courseController.js:29-50 | exactly one of: 400 when the chain fails; 404 when the id names no course; 500 when another course holds the merged code; 200 otherwise, with only that course replaced by the merge |
| CourseController.DeleteCourse | backend/src/controllers/courseController.js:52-68 | 204 and exactly that key removed when the id names a course, otherwise 404 and nothing changed |
| StudentController.ListStudents | Sistema-Turmas-Matriculas-main/backend/src/controllers/studentController.js:7-20 | every student is listed once, with exactly the enrollments whose studentId names them, each joined with the stored class (and its course) it names |
| StudentController.ValidBodyMakesStudent | Sistema-Turmas-Matriculas-main/backend/src/controllers/studentController.js:32 | a body that passes the POST chain always makes a student |
| StudentController.ValidBodyMergesStudent | Sistema-Turmas-Matriculas-main/backend/src/controllers/studentController.js:55 | a body that passes the PUT chain merges into any stored student |
| StudentController.CreateStudent | Sistema-Turmas-Matriculas-main/backend/src/controllers/studentController.js:24-37 | exactly one of: 400 when the chain fails; 500 when another student holds the email or the document; 201 otherwise, with one new student under a fresh key |
| StudentController.UpdateStudent | Sistema-Turmas-Matriculas-main/backend/src/controllers/studentController.js:39-60 | exactly one of: 400 when the chain fails; 404 when the id names no student; 500 when the merge is refused or another student holds the merged email or document; 200 otherwise, with only that student replaced |
| StudentController.DeleteStudent | Sistema-Turmas-Matriculas-main/backend/src/controllers/studentController.js:62-78 | 204 and exactly that key removed when the id names a student, otherwise 404 and nothing changed |
| AuthController.FindByEmail | Sistema-Turmas-Matriculas-main/backend/src/controllers/authController.js:39 | `findOne` finds an account exactly when one holds the email, and the one found holds it |
| AuthController.AtMostOneAccount | Sistema-Turmas-Matriculas-main/backend/src/controllers/authController.js:15-23 | under the store invariant (register refuses a taken email) an email names at most one account |
| AuthController.ValidBodyMakesUser | Sistema-Turmas-Matriculas-main/backend/src/controllers/authController.js:21 | a body that passes the register chain always makes a user with the email sent and a password of at least 6 characters |
| AuthController.Register | Sistema-Turmas-Matriculas-main/backend/src/controllers/authController.js:5-27 | 400 with the chain's errors; 409 exactly when an account holds the email; otherwise 201 with one new user, and the reply is its profile (id, name, email, role, never the password); emails stay unique |
| AuthController.Login | Sistema-Turmas-Matriculas-main/backend/src/controllers/authController.js:29-57 | 400 with the chain's errors; otherwise 200 exactly when an account holds the email and the password checks out, else the one 401 "Credenciais inválidas"; on 200 the token is signed over that account's claims and the reply holds its profile; the store is not touched |
| AuthMiddleware.Split | Sistema-Turmas-Matriculas-main/backend/src/middleware/auth.js:9 | `split(' ')` gives at least one piece, no piece holds a space, and there is exactly one piece when the text holds no space |
| AuthMiddleware.JoinSplit | Sistema-Turmas-Matriculas-main/backend/src/middleware/auth.js:9 | joining the pieces with single spaces gives the header back |
| AuthMiddleware.SplitJoin | Sistema-Turmas-Matriculas-main/backend/src/middleware/auth.js:9 | splitting space-free pieces joined by single spaces gives the same pieces |
| AuthMiddleware.BearerToken | Sistema-Turmas-Matriculas-main/backend/src/middleware/auth.js:9 | there is a token exactly when the header holds a space |
| AuthMiddleware.Authenticate | Sistema-Turmas-Matriculas-main/backend/src/middleware/auth.js:3-18 | "Token não fornecido" exactly when the header is absent or empty; passes exactly when the second piece verifies, with its claims; every other case is "Token inválido" |
| AuthMiddleware.SecondPieceDecides | Sistema-Turmas-Matriculas-main/backend/src/middleware/auth.js:9-14 | with two or more pieces, the verdict depends on the second piece alone |
| AuthMiddleware.AnySchemePasses | Sistema-Turmas-Matriculas-main/backend/src/middleware/auth.js:9-14 | any scheme word followed by a space and a token that verifies passes with that token's claims |
| AuthMiddleware.BareTokenRefused | Sistema-Turmas-Matriculas-main/backend/src/middleware/auth.js:9-17 | a header holding no space is refused as an invalid token, even when the header itself would verify |
| Api.Handle | Sistema-Turmas-Matriculas-main/backend/src/routes/index.js:10-14 | the status is exactly `Answer`, and the new tables and counters exactly `Step`, of the store before the request; a refused header on a gated router is 401 with the store untouched, whatever the path; listings and login change nothing; each router changes only its own table and counter |
| Api.EnrollmentRouter | Sistema-Turmas-Matriculas-main/backend/src/routes/enrollmentRoutes.js:8-131 | the status is `EnrollmentAnswer` and the new enrollments table and counter are `EnrollmentStep` of the store before the request, so a write happens exactly on the handler's success and writes the row its reply names; the invariant is kept, and the listing changes nothing |
| Api.ClassRouter | Sistema-Turmas-Matriculas-main/backend/src/routes/classRoutes.js:8-136 | the status is `ClassAnswer` and the new classes table and counter are `ClassStep` of the store before the request, so a write happens exactly on the handler's success and writes the row its reply names; the invariant is kept, and the listing changes nothing |
| Api.CourseRouter | backend/src/routes/courseRoutes.js:8-140 | the status is `CourseAnswer` and the new courses table and counter are `CourseStep` of the store before the request, so a write happens exactly on the handler's success and writes the row its reply names; the invariant is kept, and the listing changes nothing |
| Api.StudentRouter | backend/src/routes/studentRoutes.js:8-133 | the status is `StudentAnswer` and the new students table and counter are `StudentStep` of the store before the request, so a write happens exactly on the handler's success and writes the row its reply names; the invariant is kept, and the listing changes nothing |
| Api.AuthRouter | backend/src/routes/authRoutes.js:45-87 | behind no gate, the status is `AuthAnswer` and the new users table and counter are `AuthStep` of the store before the request: a registration that succeeds stores the new user under the next key; the invariant is kept, and login changes nothing |
| Api.Answer | Sistema-Turmas-Matriculas-main/backend/src/middleware/auth.js:3-18 | on a gated router the answer is 401 exactly when `authenticate` refuses the header, since no handler behind a gate answers 401; an unrouted path under the auth router is 404 |
| Api.HeaderOnlyOpensTheGate | Sistema-Turmas-Matriculas-main/backend/src/routes/classRoutes.js:8 | past the gate the header plays no part: the same request under any two accepted headers gets the same answer |
| Api.Dispatch | Sistema-Turmas-Matriculas-main/backend/src/routes/index.js:10-14 | a request past the gate, for a route the table has, gets `Answer` as its status and `Step` as its new store |
| Api.RefusalChangesNothing | Sistema-Turmas-Matriculas-main/backend/src/controllers/enrollmentController.js:24-41 | a request the API answers with anything but 200, 201 or 204 leaves every table and counter as it was |
| Api.SuccessWrites | Sistema-Turmas-Matriculas-main/backend/src/controllers/enrollmentController.js:43-44 | a 201 advances a table's counter (a row is inserted), and a 204 changes the tables (the row the path names is removed) |
| Api.StepTouchesOneTable | Sistema-Turmas-Matriculas-main/backend/src/routes/index.js:10-14 | a request changes at most the table and counter of the resource its path names |
| Api.AdmissionStepKeepsBound | Sistema-Turmas-Matriculas-main/backend/src/controllers/enrollmentController.js:33-44 | an enrollment request the API answers with 201 adds one to the count of the class it names, and that count stays within the class's capacity |
| Api.Admit | Sistema-Turmas-Matriculas-main/backend/src/controllers/enrollmentController.js:39-44 | an admission into an existing class is 201 exactly when its count is below its capacity, and otherwise 400; on 201 the enrollments are the old ones plus the body's enrollment under the next key, otherwise they are unchanged, and the count goes up by one exactly on 201 |

## Left out

- Error bodies: the `message` texts of validation errors (`withMessage`), the `value`, `msg` and `type` of each error, and the `details` of 500 replies. A validation error keeps only its location and field; a 500 is the bare `Internal`.
- Failures of the database itself (a lost connection, a failed query). A 500 arises in the model only from the store rejections it models: unique columns, and body text that an integer or enum column cannot take. The listings therefore never fail.
- Foreign keys: the store does not check that courseId, classId or studentId name existing rows, where the database would refuse such an insert or update with a 500. So `Api.AdmissionScenario` creates a class of course 1 and enrollments of student 1 in a store that holds no course and no student. What the associations do on delete is not modelled either. Deleting a class, course or student leaves the rows that named it as they were.
- A body that sends `id`, `createdAt` or `updatedAt`: the model always takes the next counter value, and keeps no timestamps.
- Body values are text, the way the validators see them. A JSON number is modelled as its plain decimal text (`ShowInt`); numbers beyond 2^53, which JavaScript rounds, and numbers JavaScript writes with an exponent are not modelled. Booleans, arrays, objects and `null` in a body are not modelled.
- Integer width: ids, workload and capacity are unbounded integers. A PostgreSQL INTEGER column (the backend/ tree's configuration) would refuse a value above 2147483647 with a 500, and the chains let such values through; SQLite stores 64-bit integers.
- `isEmail` and `isISO8601` are parameters of the model (`Validation.Lib`), since their rules belong to the validator library. Both reject the empty text. Dates are stored as the text sent; `DATEONLY` conversion and `DataTypes.NOW` are not modelled, and the creation date is a parameter.
- Token signing and verification (JSON Web Tokens, RFC 7519, with the secret and the expiry) are parameters. `sign` builds a token from claims. `verify` gives the claims, or nothing where the library would throw.
- Sistema-Turmas-Matriculas-main/backend/src/models/User.js is not part of this model. So `checkPassword` is a parameter, and the password is stored as sent (any hashing hook is unknown). An absent role is recorded as "left to the model's default" (`None`). The uniqueness of user emails is kept by register's own check, not by a known index.
- AuthController.FindByEmail: `findOne` has no order, so the model returns some account holding the email. Under the store invariant that account is the only one.
- Store.KeyOf reads a path id only as integer text (`isInt`'s form); any other id text finds no row, so the delete handlers, which never consult their chain, answer 404. The main tree is configured for SQLite, whose numeric affinity makes a text such as `5.0` or `1e0` match row 5 or row 1; that match is not modelled. Under PostgreSQL (the backend/ tree's configuration) a non-numeric id such as `abc` is a 500, not a 404.
- Concurrency: each handler is one atomic step. The race between the class lookup and the insert in `createEnrollment` can let two concurrent admissions both through. It is not modelled.
- Row order in the listings: each listing is a map keyed by id.
- The server bootstrap, Swagger docs, CORS, configuration and the frontend.
- `isLength` is modelled as counting characters other than the variation selectors U+FE0E and U+FE0F (`MeasuredLength`); a Dafny character is a Unicode scalar value, so a surrogate pair already counts once. Other differences between validator.js's length and this count are not modelled.
