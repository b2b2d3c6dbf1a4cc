/** The records the search engine reads: courses, modules, lessons and
    exercises of courses/models.py, and users of users/models.py, reduced
    to the fields the search reads. Identifiers are the string form of the
    records' UUIDs; timestamps are integers that order like the source's
    datetimes. Parent records are embedded, as `select_related` joins them. */
module Records {
  import opened Wrappers

  datatype Course = Course(
    id: string,
    title: string,
    description: string,
    languageCode: string,   // course.language.code
    level: string,
    thumbnailUrl: Option<string>,
    isActive: bool,
    createdAt: int)

  /** A module sits between a course and its lessons. The search never
      consults the module's own `is_active` flag. */
  datatype CourseModule = CourseModule(id: string, isActive: bool, course: Course)

  datatype Lesson = Lesson(
    id: string,
    courseModule: CourseModule,   // lesson.module
    title: string,
    contentText: string,
    durationMinutes: int,
    isActive: bool,
    createdAt: int)

  /** `createdAt` is not a field of the source's Exercise model; it is the
      timestamp the exercise search orders by (see SearchService). */
  datatype Exercise = Exercise(
    id: string,
    lesson: Lesson,
    exerciseType: string,
    title: string,
    questionText: string,
    points: int,
    isActive: bool,
    createdAt: int)

  datatype User = User(
    id: string,
    username: string,
    email: string,
    firstName: string,
    lastName: string,
    userType: string,
    avatarUrl: Option<string>,
    isActive: bool,
    dateJoined: int)

  /** The record store the ORM queries, one table per entity. */
  datatype Store = Store(
    courses: seq<Course>,
    lessons: seq<Lesson>,
    exercises: seq<Exercise>,
    users: seq<User>)
}
