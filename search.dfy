/** `SearchService.search`: the entry point of the federated search. */
module SearchService {
  import opened Wrappers
  import opened Text
  import opened Records
  import opened SearchResults
  import opened QueryNormalizer
  import opened Retrieval
  import opened Merge
  import opened Ranking

  const ResponseCap: nat := 50

  /** The `by_type` dictionary: the per-source counts before merging. */
  datatype ByType = ByType(courses: nat, lessons: nat, exercises: nat, users: nat)

  /** The dictionary `search` returns. `ShortCircuit` is the early
      `{'results': [], 'total': 0}`, without `query` and `by_type` keys. */
  datatype SearchResponse =
    | ShortCircuit
    | Answer(query: string, results: seq<Scored>, total: nat, byType: ByType)
  {
    /** The `results` key. */
    function Results(): seq<Scored>
    {
      if ShortCircuit? then [] else results
    }

    /** The `total` key. */
    function Total(): nat
    {
      if ShortCircuit? then 0 else total
    }
  }

  /** `not query or len(query.strip()) < 2` */
  predicate TooShort(query: string)
  {
    query == [] || |Trim(query)| < 2
  }

  /** The four source lists `search` gathers, for the cleaned query; the user
      source is searched only when a requesting user is passed (`if user`). */
  function Gathered(store: Store, query: string, filters: map<string, string>, hasRequester: bool)
    : (r: (seq<Hit>, seq<Hit>, seq<Hit>, seq<Hit>))
  {
    var q := CleanQuery(query);
    (SearchCourses(store, q, filters), SearchLessons(store, q, filters),
     SearchExercises(store, q, filters),
     if hasRequester then SearchUsers(store, q, filters) else [])
  }

  /** The response `search` builds, as a value. */
  function Respond(store: Store, query: string, filters: map<string, string>, hasRequester: bool)
    : (r: SearchResponse)
  {
    if TooShort(query) then ShortCircuit
    else
      var g := Gathered(store, query, filters, hasRequester);
      Assemble(query, g.0, g.1, g.2, g.3)
  }

  /** The answer built from the four source lists. */
  function Assemble(query: string, courses: seq<Hit>, lessons: seq<Hit>, exercises: seq<Hit>, users: seq<Hit>)
    : (r: SearchResponse)
  {
    var merged := Merged(courses, lessons, exercises, users);
    Answer(query, Take(merged, ResponseCap), |merged|, ByType(|courses|, |lessons|, |exercises|, |users|))
  }

  lemma AssembleOrdered(query: string, courses: seq<Hit>, lessons: seq<Hit>, exercises: seq<Hit>, users: seq<Hit>)
    ensures var r := Assemble(query, courses, lessons, exercises, users);
      (forall i, j :: 0 <= i < j < |r.results| ==> r.results[i].finalScore >= r.results[j].finalScore)
      && (forall k :: 0 <= k < |r.results| ==>
            var h := r.results[k].hit;
            h in courses || h in lessons || h in exercises || h in users)
  {
    var merged := Merged(courses, lessons, exercises, users);
    MergedMembers(courses, lessons, exercises, users);
    var r := Assemble(query, courses, lessons, exercises, users);
    assert r.results == merged[..|r.results|];
  }

  /** `search(query, filters, user)`, composed from the corrected exercise
      and user searches (`SearchExercises`, `SearchUsers`): as written, the
      exercise search raises for every query that reaches it
      (`Retrieval.ExerciseSearchAlwaysFails`), so this is the behaviour the
      code evidently intends. `filters` stands for `filters or {}`;
      `hasRequester` says whether a requesting user object was passed; the
      source tests it for truthiness, and Django's `AnonymousUser` is truthy. */
  method Search(store: Store, query: string, filters: map<string, string>, hasRequester: bool)
    returns (response: SearchResponse)
    ensures response == Respond(store, query, filters, hasRequester)
  {
    if TooShort(query) {
      return ShortCircuit;
    }
    var q := CleanQuery(query);
    var courses := SearchCourses(store, q, filters);
    var lessons := SearchLessons(store, q, filters);
    var exercises := SearchExercises(store, q, filters);
    var users := if hasRequester then SearchUsers(store, q, filters) else [];
    var combined := CombineResults(courses, lessons, exercises, users);
    response := Answer(query, Take(combined, ResponseCap), |combined|,
                       ByType(|courses|, |lessons|, |exercises|, |users|));
  }

  /** A missing, empty or (after stripping) one-character query short-circuits
      to an empty result with total 0; any other query is answered, echoing
      the query as given. */
  lemma ShortQueries(store: Store, query: string, filters: map<string, string>, hasRequester: bool)
    ensures var r := Respond(store, query, filters, hasRequester);
      (r.ShortCircuit? <==> (query == [] || |Trim(query)| < 2))
      && (r.ShortCircuit? ==> r.Results() == [] && r.Total() == 0)
      && (r.Answer? ==> r.query == query)
  {
  }

  /** `total` counts every merged hit, which is the sum of the per-source
      counts; `results` is the first 50 of the merged list. */
  lemma ResponseCounts(store: Store, query: string, filters: map<string, string>, hasRequester: bool)
    requires !TooShort(query)
    ensures var r := Respond(store, query, filters, hasRequester);
      var g := Gathered(store, query, filters, hasRequester);
      var merged := Merged(g.0, g.1, g.2, g.3);
      r.total == |merged|
      && r.total == r.byType.courses + r.byType.lessons + r.byType.exercises + r.byType.users
      && |r.results| == Min(ResponseCap, r.total)
      && r.results <= merged
  {
    var g := Gathered(store, query, filters, hasRequester);
    AssembleCounts(query, g.0, g.1, g.2, g.3);
  }

  lemma AssembleCounts(query: string, courses: seq<Hit>, lessons: seq<Hit>, exercises: seq<Hit>, users: seq<Hit>)
    ensures var r := Assemble(query, courses, lessons, exercises, users);
      var merged := Merged(courses, lessons, exercises, users);
      r.total == |merged|
      && r.total == r.byType.courses + r.byType.lessons + r.byType.exercises + r.byType.users
      && |r.results| == Min(ResponseCap, r.total)
      && r.results <= merged
  {
    MergedIsStableSort(courses, lessons, exercises, users);
  }

  /** No source contributes more than its cap: 20 courses, lessons and
      exercises, 10 users, so at most 70 hits are merged. */
  lemma ResponseCaps(store: Store, query: string, filters: map<string, string>, hasRequester: bool)
    requires !TooShort(query)
    ensures var r := Respond(store, query, filters, hasRequester);
      r.byType.courses <= ContentCap && r.byType.lessons <= ContentCap
      && r.byType.exercises <= ContentCap && r.byType.users <= UserCap
      && r.total <= 3 * ContentCap + UserCap
  {
    ResponseCounts(store, query, filters, hasRequester);
  }

  /** The returned results are in non-increasing order of final score, and
      each is a hit of one of the four sources. */
  lemma ResponseOrdered(store: Store, query: string, filters: map<string, string>, hasRequester: bool)
    requires !TooShort(query)
    ensures var r := Respond(store, query, filters, hasRequester);
      var g := Gathered(store, query, filters, hasRequester);
      (forall i, j :: 0 <= i < j < |r.results| ==> r.results[i].finalScore >= r.results[j].finalScore)
      && (forall k :: 0 <= k < |r.results| ==>
            var h := r.results[k].hit;
            h in g.0 || h in g.1 || h in g.2 || h in g.3)
  {
    var g := Gathered(store, query, filters, hasRequester);
    AssembleOrdered(query, g.0, g.1, g.2, g.3);
  }

  /** Without a requesting user, no result is a user hit and `by_type`
      reports no users. */
  lemma NoRequesterNoUsers(store: Store, query: string, filters: map<string, string>)
    requires !TooShort(query)
    ensures var r := Respond(store, query, filters, false);
      r.byType.users == 0
      && forall k :: 0 <= k < |r.results| ==> !r.results[k].hit.UserHit?
  {
    var g := Gathered(store, query, filters, false);
    AssembleNoUsers(query, g.0, g.1, g.2);
  }

  lemma AssembleNoUsers(query: string, courses: seq<Hit>, lessons: seq<Hit>, exercises: seq<Hit>)
    requires forall k :: 0 <= k < |courses| ==> courses[k].CourseHit?
    requires forall k :: 0 <= k < |lessons| ==> lessons[k].LessonHit?
    requires forall k :: 0 <= k < |exercises| ==> exercises[k].ExerciseHit?
    ensures var r := Assemble(query, courses, lessons, exercises, []);
      r.byType.users == 0
      && forall k :: 0 <= k < |r.results| ==> !r.results[k].hit.UserHit?
  {
    NoUserHits(courses, lessons, exercises);
    var merged := Merged(courses, lessons, exercises, []);
    var r := Assemble(query, courses, lessons, exercises, []);
    assert r.results == merged[..|r.results|];
  }

  /** Without the user source, no merged entry is a user hit. */
  lemma NoUserHits(courses: seq<Hit>, lessons: seq<Hit>, exercises: seq<Hit>)
    requires forall k :: 0 <= k < |courses| ==> courses[k].CourseHit?
    requires forall k :: 0 <= k < |lessons| ==> lessons[k].LessonHit?
    requires forall k :: 0 <= k < |exercises| ==> exercises[k].ExerciseHit?
    ensures forall k :: 0 <= k < |Merged(courses, lessons, exercises, [])| ==>
              !Merged(courses, lessons, exercises, [])[k].hit.UserHit?
  {
    MergedMembers(courses, lessons, exercises, []);
    var m := Merged(courses, lessons, exercises, []);
    forall k | 0 <= k < |m| ensures !m[k].hit.UserHit? {
      var h := m[k].hit;
      if h in courses {
        var i :| 0 <= i < |courses| && courses[i] == h;
      } else if h in lessons {
        var i :| 0 <= i < |lessons| && lessons[i] == h;
      } else {
        var i :| 0 <= i < |exercises| && exercises[i] == h;
      }
    }
  }
}
