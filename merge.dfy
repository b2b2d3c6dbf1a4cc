/** `SearchService._combine_results`: attaches `final_score` to every hit,
    concatenates the four source lists in dictionary order and stable-sorts
    the whole by descending score.

    The weight table is keyed by the singular type names, but it is looked
    up with the dictionary's plural keys, so every lookup falls back to the
    default weight 1.0 and `final_score` equals `relevance`. */
module Merge {
  import opened Ranking
  import opened SearchResults
  import opened Retrieval

  /** The keys of the dictionary `search` passes in, in insertion order. */
  const SourceKeys: seq<string> := ["courses", "lessons", "exercises", "users"]

  /** The per-type weights, in hundredths, keyed as in the source. */
  const TypeWeights: map<string, int> := map["course" := 120, "lesson" := 100, "exercise" := 80, "user" := 110]

  /** `type_weights.get(entity_type, 1.0)` */
  function Weight(entityType: string): (r: int)
  {
    if entityType in TypeWeights then TypeWeights[entityType] else 100
  }

  /** `result['final_score'] = relevance * weight`, in hundredths. */
  function Score(entityType: string, h: Hit): (r: Scored)
  {
    Scored(h, h.relevance * Weight(entityType) / 100)
  }

  function FinalScore(s: Scored): (r: int) { s.finalScore }

  function ScoreList(entityType: string, hits: seq<Hit>): (r: seq<Scored>)
    ensures |r| == |hits|
  {
    seq(|hits|, k requires 0 <= k < |hits| => Score(entityType, hits[k]))
  }

  /** Every source's hits, scored, one source after the other. */
  function ScoreAll(sources: seq<(string, seq<Hit>)>): (r: seq<Scored>)
  {
    if sources == [] then []
    else
      var last := sources[|sources| - 1];
      ScoreAll(sources[..|sources| - 1]) + ScoreList(last.0, last.1)
  }

  /** The `results` dictionary of `search`. */
  function Sources(courses: seq<Hit>, lessons: seq<Hit>, exercises: seq<Hit>, users: seq<Hit>)
    : (r: seq<(string, seq<Hit>)>)
  {
    [(SourceKeys[0], courses), (SourceKeys[1], lessons), (SourceKeys[2], exercises), (SourceKeys[3], users)]
  }

  /** The list `_combine_results` returns. */
  function Merged(courses: seq<Hit>, lessons: seq<Hit>, exercises: seq<Hit>, users: seq<Hit>): (r: seq<Scored>)
  {
    SortDesc(ScoreAll(Sources(courses, lessons, exercises, users)), FinalScore)
  }

  /** `_combine_results` */
  method CombineResults(courses: seq<Hit>, lessons: seq<Hit>, exercises: seq<Hit>, users: seq<Hit>)
    returns (combined: seq<Scored>)
    ensures combined == Merged(courses, lessons, exercises, users)
  {
    var results := Sources(courses, lessons, exercises, users);
    combined := [];
    var i := 0;
    while i < |results|
      invariant 0 <= i <= |results|
      invariant combined == ScoreAll(results[..i])
    {
      var (entityType, entityResults) := results[i];
      var j := 0;
      while j < |entityResults|
        invariant 0 <= j <= |entityResults|
        invariant combined == ScoreAll(results[..i]) + ScoreList(entityType, entityResults[..j])
      {
        combined := combined + [Score(entityType, entityResults[j])];
        j := j + 1;
      }
      assert entityResults[..j] == entityResults;
      assert results[..i + 1][..i] == results[..i];
      i := i + 1;
    }
    assert results[..i] == results;
    combined := SortDesc(combined, FinalScore);
  }

  /** No key of the dictionary is a key of the weight table. */
  lemma WeightsNeverApply()
    ensures forall k :: k in SourceKeys ==> k !in TypeWeights
    ensures forall k :: k in SourceKeys ==> Weight(k) == 100
  {
    forall k | k in SourceKeys ensures k !in TypeWeights {
      assert |k| % 2 == 1;
    }
  }

  /** The scored concatenation, written out source by source. */
  lemma ScoreAllSources(courses: seq<Hit>, lessons: seq<Hit>, exercises: seq<Hit>, users: seq<Hit>)
    ensures ScoreAll(Sources(courses, lessons, exercises, users))
            == ScoreList("courses", courses) + ScoreList("lessons", lessons)
               + ScoreList("exercises", exercises) + ScoreList("users", users)
  {
    var s := Sources(courses, lessons, exercises, users);
    var c, l, e, u := ScoreList("courses", courses), ScoreList("lessons", lessons),
                      ScoreList("exercises", exercises), ScoreList("users", users);
    assert s[..1][..0] == [];
    assert ScoreAll(s[..1]) == c;
    assert s[..2][..1] == s[..1];
    assert ScoreAll(s[..2]) == c + l;
    assert s[..3][..2] == s[..2];
    assert ScoreAll(s[..3]) == c + l + e;
    assert s[..3] == s[..|s| - 1];
    assert ScoreAll(s) == c + l + e + u;
  }

  /** Scoring with a dictionary key leaves the relevance as the score. */
  lemma ScoreListKeepsRelevance(entityType: string, hits: seq<Hit>)
    requires entityType in SourceKeys
    ensures forall k :: 0 <= k < |hits| ==>
              ScoreList(entityType, hits)[k].finalScore == hits[k].relevance
              && ScoreList(entityType, hits)[k].hit == hits[k]
  {
    WeightsNeverApply();
  }

  /** The merged list is the scored concatenation, sorted by descending
      score; equal scores keep their concatenation order; and every final
      score equals the hit's relevance. */
  lemma MergedIsStableSort(courses: seq<Hit>, lessons: seq<Hit>, exercises: seq<Hit>, users: seq<Hit>)
    ensures var m := Merged(courses, lessons, exercises, users);
      var concat := ScoreList("courses", courses) + ScoreList("lessons", lessons)
                    + ScoreList("exercises", exercises) + ScoreList("users", users);
      |m| == |courses| + |lessons| + |exercises| + |users|
      && multiset(m) == multiset(concat)
      && (forall i, j :: 0 <= i < j < |m| ==> m[i].finalScore >= m[j].finalScore)
      && (forall v :: WithKey(m, FinalScore, v) == WithKey(concat, FinalScore, v))
      && (forall k :: 0 <= k < |m| ==> m[k].finalScore == m[k].hit.relevance)
  {
    ScoreAllSources(courses, lessons, exercises, users);
    var concat := ScoreAll(Sources(courses, lessons, exercises, users));
    var m := SortDesc(concat, FinalScore);
    forall v ensures WithKey(m, FinalScore, v) == WithKey(concat, FinalScore, v) {
      SortDescStable(concat, FinalScore, v);
    }
    ConcatKeepsRelevance(courses, lessons, exercises, users);
    PermutationKeepsRelevance(concat, m);
  }

  lemma ConcatKeepsRelevance(courses: seq<Hit>, lessons: seq<Hit>, exercises: seq<Hit>, users: seq<Hit>)
    ensures var concat := ScoreAll(Sources(courses, lessons, exercises, users));
      forall k :: 0 <= k < |concat| ==> concat[k].finalScore == concat[k].hit.relevance
  {
    ScoreAllSources(courses, lessons, exercises, users);
    ScoreListKeepsRelevance("courses", courses);
    ScoreListKeepsRelevance("lessons", lessons);
    ScoreListKeepsRelevance("exercises", exercises);
    ScoreListKeepsRelevance("users", users);
  }

  lemma PermutationKeepsRelevance(xs: seq<Scored>, ys: seq<Scored>)
    requires multiset(ys) == multiset(xs)
    requires forall k :: 0 <= k < |xs| ==> xs[k].finalScore == xs[k].hit.relevance
    ensures forall k :: 0 <= k < |ys| ==> ys[k].finalScore == ys[k].hit.relevance
  {
    PermutationMembers(xs, ys);
  }

  /** Scoring keeps the hit: every scored entry carries a hit of the list. */
  lemma ScoreListMembers(entityType: string, hits: seq<Hit>)
    ensures forall x :: x in ScoreList(entityType, hits) ==> x.hit in hits
  {
  }

  /** Every merged entry is the hit of one of the four sources. */
  lemma MergedMembers(courses: seq<Hit>, lessons: seq<Hit>, exercises: seq<Hit>, users: seq<Hit>)
    ensures var m := Merged(courses, lessons, exercises, users);
      forall k :: 0 <= k < |m| ==>
        m[k].hit in courses || m[k].hit in lessons || m[k].hit in exercises || m[k].hit in users
  {
    ScoreAllSources(courses, lessons, exercises, users);
    var concat := ScoreAll(Sources(courses, lessons, exercises, users));
    PermutationMembers(concat, SortDesc(concat, FinalScore));
    ScoreListMembers("courses", courses);
    ScoreListMembers("lessons", lessons);
    ScoreListMembers("exercises", exercises);
    ScoreListMembers("users", users);
  }

  /** With the fixed relevances of the four sources, the merged list is all
      courses, then all users, then all lessons, then all exercises, each
      group in the order its source returned it. */
  lemma MergedGroupOrder(courses: seq<Hit>, lessons: seq<Hit>, exercises: seq<Hit>, users: seq<Hit>)
    requires forall k :: 0 <= k < |courses| ==> courses[k].relevance == CourseRelevance
    requires forall k :: 0 <= k < |lessons| ==> lessons[k].relevance == LessonRelevance
    requires forall k :: 0 <= k < |exercises| ==> exercises[k].relevance == ExerciseRelevance
    requires forall k :: 0 <= k < |users| ==> users[k].relevance == UserRelevance
    ensures Merged(courses, lessons, exercises, users)
            == ScoreList("courses", courses) + ScoreList("users", users)
               + ScoreList("lessons", lessons) + ScoreList("exercises", exercises)
  {
    var c, l, e, u := ScoreList("courses", courses), ScoreList("lessons", lessons),
                      ScoreList("exercises", exercises), ScoreList("users", users);
    ScoreListKeepsRelevance("courses", courses);
    ScoreListKeepsRelevance("lessons", lessons);
    ScoreListKeepsRelevance("exercises", exercises);
    ScoreListKeepsRelevance("users", users);
    assert AllKeyed(c, FinalScore, 100) && AllKeyed(u, FinalScore, 90);
    assert AllKeyed(l, FinalScore, 80) && AllKeyed(e, FinalScore, 60);
    ScoreAllSources(courses, lessons, exercises, users);
    var concat := c + l + e + u;
    var target := c + u + l + e;
    AppendSorted(c, u, FinalScore, 100, 90);
    AppendSorted(c + u, l, FinalScore, 90, 80);
    AppendSorted(c + u + l, e, FinalScore, 80, 60);
    var m := Merged(courses, lessons, exercises, users);
    forall v ensures WithKey(m, FinalScore, v) == WithKey(target, FinalScore, v) {
      SortDescStable(concat, FinalScore, v);
      SameBlocks(c, l, e, u, v);
    }
    SortedUnique(m, target, FinalScore);
  }

  /** Blocks of distinct constant keys: reordering the blocks does not change
      which elements carry any one key, nor their order. */
  lemma SameBlocks(c: seq<Scored>, l: seq<Scored>, e: seq<Scored>, u: seq<Scored>, v: int)
    requires AllKeyed(c, FinalScore, 100) && AllKeyed(u, FinalScore, 90)
    requires AllKeyed(l, FinalScore, 80) && AllKeyed(e, FinalScore, 60)
    ensures WithKey(c + l + e + u, FinalScore, v) == WithKey(c + u + l + e, FinalScore, v)
  {
    WithKeyAppend(c + l + e, u, FinalScore, v);
    WithKeyAppend(c + l, e, FinalScore, v);
    WithKeyAppend(c, l, FinalScore, v);
    WithKeyAppend(c + u + l, e, FinalScore, v);
    WithKeyAppend(c + u, l, FinalScore, v);
    WithKeyAppend(c, u, FinalScore, v);
    KeyedBlock(c, 100, v);
    KeyedBlock(u, 90, v);
    KeyedBlock(l, 80, v);
    KeyedBlock(e, 60, v);
  }

  lemma KeyedBlock(xs: seq<Scored>, w: int, v: int)
    requires AllKeyed(xs, FinalScore, w)
    ensures WithKey(xs, FinalScore, v) == if v == w then xs else []
  {
    if v == w {
      WithKeyAll(xs, FinalScore, v);
    } else {
      WithKeyNone(xs, FinalScore, v);
    }
  }
}
