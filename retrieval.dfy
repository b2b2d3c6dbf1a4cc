/** The result shapes the search returns. Scores are fixed-point integers
    in hundredths: a relevance of 1.0 is 100. */
module SearchResults {
  import opened Wrappers

  /** One projected record; each alternative carries exactly the keys of
      the dictionary the source builds for that type. */
  datatype Hit =
    | CourseHit(id: string, title: string, description: string, language: string,
                level: string, thumbnail: Option<string>, relevance: int)
    | LessonHit(id: string, title: string, contentPreview: string, courseTitle: string,
                courseId: string, duration: int, relevance: int)
    | ExerciseHit(subtype: string, id: string, title: string, questionPreview: string,
                  lessonTitle: string, courseTitle: string, points: int, relevance: int)
    | UserHit(id: string, name: string, username: string, email: string,
              userType: string, avatar: Option<string>, relevance: int)

  /** A hit after merging, with the `final_score` key attached. */
  datatype Scored = Scored(hit: Hit, finalScore: int)
}

/** The four per-source retrievals of SearchService: `_search_courses`,
    `_search_lessons`, `_search_exercises` and `_search_users`. Each keeps
    the active records that pass the optional filters and whose text fields
    contain the query, orders them newest first, keeps at most a fixed
    number and projects them to hits. The ORM leaves the order of records
    with equal timestamps open; this model fixes one such order (the
    store's), and the contracts state only what any order satisfies. */
module Retrieval {
  import opened Wrappers
  import opened Text
  import opened Ranking
  import opened Records
  import opened SearchResults

  const ContentCap: nat := 20   // courses, lessons and exercises
  const UserCap: nat := 10

  const CourseRelevance: int := 100
  const LessonRelevance: int := 80
  const ExerciseRelevance: int := 60
  const UserRelevance: int := 90

  const DescriptionBudget: nat := 200
  const ContentBudget: nat := 150
  const QuestionBudget: nat := 100

  /** `filters.get(key)` used as a condition: a filter applies only when
      its key is present with a non-empty value. */
  function FilterValue(filters: map<string, string>, key: string): (v: Option<string>)
    ensures v.Some? <==> key in filters && filters[key] != ""
    ensures v.Some? ==> v.value == filters[key]
  {
    if key in filters && filters[key] != "" then Some(filters[key]) else None
  }

  /** An absent filter admits everything; a present one requires equality. */
  predicate Honours(filter: Option<string>, value: string)
  {
    filter.None? || filter.value == value
  }

  /** `text[:budget] + '...' if text else ''`: the marker is appended to
      every non-empty text, whether or not anything was cut. */
  function Preview(text: string, budget: nat): (r: string)
    ensures text == [] ==> r == []
    ensures text != [] ==> |r| == Min(budget, |text|) + 3
    ensures text != [] ==> r[..|r| - 3] <= text && r[|r| - 3..] == "..."
    ensures 0 < |text| <= budget ==> r == text + "..."
  {
    if text == [] then [] else Take(text, budget) + "..."
  }

  // ---------------------------------------------------------------- courses

  predicate CourseSelected(c: Course, query: string, filters: map<string, string>)
  {
    c.isActive
    && Honours(FilterValue(filters, "language"), c.languageCode)
    && Honours(FilterValue(filters, "level"), c.level)
    && (IContains(c.title, query) || IContains(c.description, query))
  }

  function CourseCreated(c: Course): (r: int) { c.createdAt }

  /** The courses `_search_courses` returns, before projection. */
  function CourseMatches(store: Store, query: string, filters: map<string, string>): (top: seq<Course>)
    ensures forall k :: 0 <= k < |top| ==> top[k] in store.courses && CourseSelected(top[k], query, filters)
    ensures forall i, j :: 0 <= i < j < |top| ==> top[i].createdAt >= top[j].createdAt
    ensures forall j :: 0 <= j < |store.courses| && CourseSelected(store.courses[j], query, filters)
                        && store.courses[j] !in top ==>
              |top| == ContentCap && forall k :: 0 <= k < |top| ==> top[k].createdAt >= store.courses[j].createdAt
  {
    TopByKey(store.courses, c => CourseSelected(c, query, filters), CourseCreated, ContentCap)
  }

  function ProjectCourse(c: Course): (r: Hit)
  {
    CourseHit(c.id, c.title, Preview(c.description, DescriptionBudget), c.languageCode,
              c.level, c.thumbnailUrl, CourseRelevance)
  }

  /** `_search_courses` */
  function SearchCourses(store: Store, query: string, filters: map<string, string>): (hits: seq<Hit>)
    ensures |hits| == |CourseMatches(store, query, filters)| <= ContentCap
    ensures forall k :: 0 <= k < |hits| ==>
              hits[k] == ProjectCourse(CourseMatches(store, query, filters)[k])
              && hits[k].CourseHit? && hits[k].relevance == CourseRelevance
  {
    var top := CourseMatches(store, query, filters);
    seq(|top|, k requires 0 <= k < |top| => ProjectCourse(top[k]))
  }

  // ---------------------------------------------------------------- lessons

  /** The lesson's course, reached through its module. */
  function LessonCourse(l: Lesson): (r: Course) { l.courseModule.course }

  predicate LessonSelected(l: Lesson, query: string, filters: map<string, string>)
  {
    l.isActive && LessonCourse(l).isActive
    && Honours(FilterValue(filters, "course_id"), LessonCourse(l).id)
    && (IContains(l.title, query) || IContains(l.contentText, query))
  }

  function LessonCreated(l: Lesson): (r: int) { l.createdAt }

  /** The lessons `_search_lessons` returns, before projection. */
  function LessonMatches(store: Store, query: string, filters: map<string, string>): (top: seq<Lesson>)
    ensures forall k :: 0 <= k < |top| ==> top[k] in store.lessons && LessonSelected(top[k], query, filters)
    ensures forall i, j :: 0 <= i < j < |top| ==> top[i].createdAt >= top[j].createdAt
    ensures forall j :: 0 <= j < |store.lessons| && LessonSelected(store.lessons[j], query, filters)
                        && store.lessons[j] !in top ==>
              |top| == ContentCap && forall k :: 0 <= k < |top| ==> top[k].createdAt >= store.lessons[j].createdAt
  {
    TopByKey(store.lessons, l => LessonSelected(l, query, filters), LessonCreated, ContentCap)
  }

  function ProjectLesson(l: Lesson): (r: Hit)
  {
    LessonHit(l.id, l.title, Preview(l.contentText, ContentBudget), LessonCourse(l).title,
              LessonCourse(l).id, l.durationMinutes, LessonRelevance)
  }

  /** `_search_lessons` */
  function SearchLessons(store: Store, query: string, filters: map<string, string>): (hits: seq<Hit>)
    ensures |hits| == |LessonMatches(store, query, filters)| <= ContentCap
    ensures forall k :: 0 <= k < |hits| ==>
              hits[k] == ProjectLesson(LessonMatches(store, query, filters)[k])
              && hits[k].LessonHit? && hits[k].relevance == LessonRelevance
  {
    var top := LessonMatches(store, query, filters);
    seq(|top|, k requires 0 <= k < |top| => ProjectLesson(top[k]))
  }

  // -------------------------------------------------------------- exercises

  predicate ExerciseSelected(e: Exercise, query: string, filters: map<string, string>)
  {
    e.isActive && e.lesson.isActive && LessonCourse(e.lesson).isActive
    && Honours(FilterValue(filters, "exercise_type"), e.exerciseType)
    && (IContains(e.title, query) || IContains(e.questionText, query))
  }

  function ExerciseCreated(e: Exercise): (r: int) { e.createdAt }

  /** The exercises the corrected `_search_exercises` returns, before
      projection: ordered newest first, like courses and lessons. */
  function ExerciseMatches(store: Store, query: string, filters: map<string, string>): (top: seq<Exercise>)
    ensures forall k :: 0 <= k < |top| ==> top[k] in store.exercises && ExerciseSelected(top[k], query, filters)
    ensures forall i, j :: 0 <= i < j < |top| ==> top[i].createdAt >= top[j].createdAt
    ensures forall j :: 0 <= j < |store.exercises| && ExerciseSelected(store.exercises[j], query, filters)
                        && store.exercises[j] !in top ==>
              |top| == ContentCap && forall k :: 0 <= k < |top| ==> top[k].createdAt >= store.exercises[j].createdAt
  {
    TopByKey(store.exercises, e => ExerciseSelected(e, query, filters), ExerciseCreated, ContentCap)
  }

  function ProjectExercise(e: Exercise): (r: Hit)
  {
    ExerciseHit(e.exerciseType, e.id, e.title, Preview(e.questionText, QuestionBudget),
                e.lesson.title, LessonCourse(e.lesson).title, e.points, ExerciseRelevance)
  }

  /** `_search_exercises`, corrected to order by an existing timestamp. */
  function SearchExercises(store: Store, query: string, filters: map<string, string>): (hits: seq<Hit>)
    ensures |hits| == |ExerciseMatches(store, query, filters)| <= ContentCap
    ensures forall k :: 0 <= k < |hits| ==>
              hits[k] == ProjectExercise(ExerciseMatches(store, query, filters)[k])
              && hits[k].ExerciseHit? && hits[k].relevance == ExerciseRelevance
  {
    var top := ExerciseMatches(store, query, filters);
    seq(|top|, k requires 0 <= k < |top| => ProjectExercise(top[k]))
  }

  /** The names the ORM can order Exercise by: its fields, the `pk` alias,
      the `lesson_id` column (courses/models.py) and the `attempts` reverse
      relation of practice/models.py. */
  const ExerciseFieldNames: set<string> := {
    "id", "lesson", "exercise_type", "title", "instructions", "question_text",
    "question_audio_url", "question_image_url", "options", "correct_answer",
    "acceptable_answers", "points", "time_limit_seconds", "max_attempts", "hints",
    "explanation", "order_index", "is_active", "attempts", "pk", "lesson_id"}

  /** Django's FieldError: an ordering names no field of the model. */
  datatype FieldError = FieldError(keyword: string)

  /** `order_by(term)`: the term, without a leading '-', must name a field. */
  function ResolveOrdering(fields: set<string>, term: string): (r: Result<string, FieldError>)
    ensures r.Success? <==> (if term != [] && term[0] == '-' then term[1..] else term) in fields
  {
    var name := if term != [] && term[0] == '-' then term[1..] else term;
    if name in fields then Success(name) else Failure(FieldError(name))
  }

  /** `_search_exercises` as written: `order_by('-created_at')` on a model
      without `created_at`. */
  function SearchExercisesAsWritten(store: Store, query: string, filters: map<string, string>)
    : (r: Result<seq<Hit>, FieldError>)
  {
    match ResolveOrdering(ExerciseFieldNames, "-created_at")
    case Failure(e) => Failure(e)
    case Success(_) => Success(SearchExercises(store, query, filters))
  }

  /** As written, the exercise search fails for every store, query and
      filter set. */
  lemma ExerciseSearchAlwaysFails(store: Store, query: string, filters: map<string, string>)
    ensures SearchExercisesAsWritten(store, query, filters) == Failure(FieldError("created_at"))
  {
    NoExerciseTimestamp();
  }

  /** The Exercise model has no `created_at` to order by. */
  lemma NoExerciseTimestamp()
    ensures ResolveOrdering(ExerciseFieldNames, "-created_at") == Failure(FieldError("created_at"))
  {
    var name := "created_at";
    assert "-created_at"[1..] == name;
    assert forall f :: f in ExerciseFieldNames ==> |f| != |name|;
  }

  // ------------------------------------------------------------------ users

  predicate UserSelected(u: User, query: string, filters: map<string, string>)
  {
    u.isActive
    && Honours(FilterValue(filters, "user_type"), u.userType)
    && (IContains(u.username, query) || IContains(u.email, query)
        || IContains(u.firstName, query) || IContains(u.lastName, query))
  }

  function UserJoined(u: User): (r: int) { u.dateJoined }

  /** The users `_search_users` returns, before projection. */
  function UserMatches(store: Store, query: string, filters: map<string, string>): (top: seq<User>)
    ensures forall k :: 0 <= k < |top| ==> top[k] in store.users && UserSelected(top[k], query, filters)
    ensures forall i, j :: 0 <= i < j < |top| ==> top[i].dateJoined >= top[j].dateJoined
    ensures forall j :: 0 <= j < |store.users| && UserSelected(store.users[j], query, filters)
                        && store.users[j] !in top ==>
              |top| == UserCap && forall k :: 0 <= k < |top| ==> top[k].dateJoined >= store.users[j].dateJoined
  {
    TopByKey(store.users, u => UserSelected(u, query, filters), UserJoined, UserCap)
  }

  predicate Blank(s: string)
  {
    forall i :: 0 <= i < |s| ==> IsSpace(s[i])
  }

  /** `get_full_name() or username`, with get_full_name as Django's
      AbstractUser defines it: first and last name joined by a space and
      stripped. */
  function DisplayName(u: User): (name: string)
    ensures Blank(u.firstName) && Blank(u.lastName) ==> name == u.username
    ensures !(Blank(u.firstName) && Blank(u.lastName)) ==>
              name == Trim(u.firstName + " " + u.lastName) && name != []
              && !IsSpace(name[0]) && !IsSpace(name[|name| - 1])
  {
    var full := Trim(u.firstName + " " + u.lastName);
    TrimEnds(u.firstName + " " + u.lastName);
    BlankJoin(u.firstName, u.lastName);
    if full != [] then full else u.username
  }

  lemma BlankJoin(first: string, last: string)
    ensures Blank(first + " " + last) <==> Blank(first) && Blank(last)
  {
    var s := first + " " + last;
    if Blank(first) && Blank(last) {
      forall i | 0 <= i < |s| ensures IsSpace(s[i]) {
        if i < |first| {
          assert s[i] == first[i];
        } else if i > |first| {
          assert s[i] == last[i - |first| - 1];
        }
      }
    }
    if Blank(s) {
      forall i | 0 <= i < |first| ensures IsSpace(first[i]) {
        assert s[i] == first[i];
      }
      forall i | 0 <= i < |last| ensures IsSpace(last[i]) {
        assert s[|first| + 1 + i] == last[i];
      }
    }
  }

  function ProjectUser(u: User): (r: Hit)
  {
    UserHit(u.id, DisplayName(u), u.username, u.email, u.userType, u.avatarUrl, UserRelevance)
  }

  /** `_search_users` */
  function SearchUsers(store: Store, query: string, filters: map<string, string>): (hits: seq<Hit>)
    ensures |hits| == |UserMatches(store, query, filters)| <= UserCap
    ensures forall k :: 0 <= k < |hits| ==>
              hits[k] == ProjectUser(UserMatches(store, query, filters)[k])
              && hits[k].UserHit? && hits[k].relevance == UserRelevance
  {
    var top := UserMatches(store, query, filters);
    seq(|top|, k requires 0 <= k < |top| => ProjectUser(top[k]))
  }

  /** Each retrieval returns min(cap, number of selected records) records,
      and returns a record at most as many times as the store holds it. */
  lemma MatchesCounted(store: Store, query: string, filters: map<string, string>)
    ensures |CourseMatches(store, query, filters)| == Min(ContentCap, |Select(store.courses, c => CourseSelected(c, query, filters))|)
    ensures multiset(CourseMatches(store, query, filters)) <= multiset(store.courses)
    ensures |LessonMatches(store, query, filters)| == Min(ContentCap, |Select(store.lessons, l => LessonSelected(l, query, filters))|)
    ensures multiset(LessonMatches(store, query, filters)) <= multiset(store.lessons)
    ensures |ExerciseMatches(store, query, filters)| == Min(ContentCap, |Select(store.exercises, e => ExerciseSelected(e, query, filters))|)
    ensures multiset(ExerciseMatches(store, query, filters)) <= multiset(store.exercises)
    ensures |UserMatches(store, query, filters)| == Min(UserCap, |Select(store.users, u => UserSelected(u, query, filters))|)
    ensures multiset(UserMatches(store, query, filters)) <= multiset(store.users)
  {
    TopByKeyCounts(store.courses, c => CourseSelected(c, query, filters), CourseCreated, ContentCap);
    TopByKeyCounts(store.lessons, l => LessonSelected(l, query, filters), LessonCreated, ContentCap);
    TopByKeyCounts(store.exercises, e => ExerciseSelected(e, query, filters), ExerciseCreated, ContentCap);
    TopByKeyCounts(store.users, u => UserSelected(u, query, filters), UserJoined, UserCap);
  }

  /** Python's AttributeError. */
  datatype AttributeError = AttributeError(name: string)

  /** `_search_users` as written: the User model (an AbstractBaseUser) has no
      `get_full_name`, so projecting the first matching user raises. */
  function SearchUsersAsWritten(store: Store, query: string, filters: map<string, string>)
    : (r: Result<seq<Hit>, AttributeError>)
  {
    if UserMatches(store, query, filters) == [] then Success([])
    else Failure(AttributeError("get_full_name"))
  }

  /** As written, the user search fails exactly when some active user
      passes the filter and matches the query. */
  lemma UserSearchFailsOnAnyMatch(store: Store, query: string, filters: map<string, string>)
    ensures SearchUsersAsWritten(store, query, filters).Failure?
            <==> exists j :: 0 <= j < |store.users| && UserSelected(store.users[j], query, filters)
  {
    var top := UserMatches(store, query, filters);
    if exists j :: 0 <= j < |store.users| && UserSelected(store.users[j], query, filters) {
      var j :| 0 <= j < |store.users| && UserSelected(store.users[j], query, filters);
      if top == [] {
        assert store.users[j] !in top;
      }
    }
  }
}
