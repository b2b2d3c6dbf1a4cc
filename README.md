# LinguaMaster federated search, in Dafny

This project models the search service of the LinguaMaster language-learning
back end, together with the password rule applied at registration.

`SearchService.search` takes a raw query, optional filters and an optional
requesting user. It does the following:

- A missing query, or one shorter than two characters after stripping, gets an
  empty answer.
- Otherwise it normalises the query: it collapses whitespace, removes every
  character that is not a word character, whitespace or a hyphen, strips the
  ends and lowercases the result.
- It runs four retrievals: courses, lessons, exercises and, when a requesting
  user object is passed, users. The source tests the user for truthiness
  (`if user`), and Django's `AnonymousUser` is truthy, so "a user was passed"
  is not the same as "the requester is authenticated".
- It merges the hits into one list sorted by score, and answers with the first
  50 of them, the total count and the count per source.

As written, this pipeline never answers a query that passes the length check.
The exercise retrieval orders by a `created_at` field that the Exercise model
lacks, so Django raises FieldError (`Retrieval.ExerciseSearchAlwaysFails`).
Once that is fixed, the user retrieval raises AttributeError as soon as one
user matches, because the User model has no `get_full_name`
(`Retrieval.UserSearchFailsOnAnyMatch`). `SearchService.Search` therefore
models the evidently intended pipeline. It uses two corrected members:

- `Retrieval.SearchExercises` orders exercises newest first, like courses and
  lessons.
- `Retrieval.SearchUsers` uses `Retrieval.DisplayName`: "first last", stripped,
  falling back to the username.

Both defects are listed under "## Findings".

`RegisterSerializer.validate_password` accepts a password of at least eight
characters that contains an upper-case letter, a lower-case letter and a
digit. Each failing check has its own message.

The modules follow the program:

- `Text` holds Python's string primitives: whitespace, `strip`, `lower` and
  case-insensitive containment.
- `QueryNormalizer` is `_clean_query`.
- `Records` holds the stored entities: course, module, lesson, exercise and
  user.
- `Ranking` holds selection, the stable descending sort and slicing.
- `SearchResults` and `Retrieval` are the four `_search_*` methods.
- `Merge` is `_combine_results`.
- `SearchService` is `search`.
- `RegisterSerializer` is `validate_password`.

Scores are integers in hundredths, so a relevance of 0.8 is 80. The database
is a `Store` value holding one sequence per table.

A query made of symbols only, such as `"!!"`, passes the length check but
normalises to the empty string. The empty string is contained in every field,
so such a query matches every active record (`Text.EmptyQueryMatches`).

The weight table in `_combine_results` is keyed by the singular type names
(`course`, `lesson`, …). It is looked up with the plural dictionary keys
(`courses`, `lessons`, …), so every lookup falls back to 1.0. The model keeps
that behaviour: the final score always equals the relevance, and the merged
list is all courses, then users, then lessons, then exercises
(`Merge.MergedGroupOrder`).

Normalising a query a second time can change it again: `"a ! b"` becomes
`"a  b"`, and a second pass gives `"a b"`. The model follows the code here,
not the claim that normalisation is idempotent
(`QueryNormalizer.CleanQueryNotIdempotent`).

## Model

| member | source | states |
|---|---|---|
| SearchService.Search | project/linguamaster-backend/LinguaMaster/search/services.py:6-27 | the response is the short-circuit for a too-short query. Otherwise it is the answer assembled from the four retrievals on the cleaned query, merged by `_combine_results`; users are searched only when a requesting user is passed. The exercise and user retrievals are the corrected `SearchExercises` and `SearchUsers`, since as written the pipeline raises (see Findings) |
| SearchService.Respond | project/linguamaster-backend/LinguaMaster/search/services.py:6-27 | `search` as a value: the short-circuit answer for a too-short query, otherwise the answer assembled from the four retrievals on the cleaned query (users only when a requester is passed). Its properties are stated by `ShortQueries`, `ResponseCounts`, `ResponseCaps`, `ResponseOrdered` and `NoRequesterNoUsers` |
| SearchService.ShortQueries | project/linguamaster-backend/LinguaMaster/search/services.py:7-8 | the response short-circuits exactly when the query is empty or strips to fewer than 2 characters; the short-circuit has no results and total 0; any other answer echoes the query unchanged |
| SearchService.ResponseCounts | project/linguamaster-backend/LinguaMaster/search/services.py:20-26 | `total` is the length of the merged list and equals the sum of the per-source counts; `results` is the prefix of the merged list of length min(50, total) |
| SearchService.ResponseCaps | project/linguamaster-backend/LinguaMaster/search/services.py:13-18 | per-source counts are at most 20, 20, 20 and 10, so at most 70 hits are merged |
| SearchService.ResponseOrdered | project/linguamaster-backend/LinguaMaster/search/services.py:20-24 | the returned results are in non-increasing order of final score, and each is a hit of one of the four sources |
| SearchService.NoRequesterNoUsers | project/linguamaster-backend/LinguaMaster/search/services.py:17 | when no requesting user is passed, `by_type` reports 0 users and no result is a user hit |
| QueryNormalizer.Token | project/linguamaster-backend/LinguaMaster/search/services.py:144 | the token is the longest whitespace-free prefix of the input |
| QueryNormalizer.Words | project/linguamaster-backend/LinguaMaster/search/services.py:144 | `split()` yields non-empty words without whitespace; `WordsConcat` and `WordsSplitAt` pin down which words |
| QueryNormalizer.Collapse | project/linguamaster-backend/LinguaMaster/search/services.py:144 | `' '.join(query.split())`, the space-join of the words. `WordsJoin` states that splitting it gives the input's words back, `CollapseIdempotent` that a second pass changes nothing, and `JoinSpaces` that its only whitespace is the plain space |
| QueryNormalizer.WordsConcat | project/linguamaster-backend/LinguaMaster/search/services.py:144 | the words of `s`, laid end to end, are exactly `s` with its whitespace removed, in order |
| QueryNormalizer.WordsSplitAt | project/linguamaster-backend/LinguaMaster/search/services.py:144 | splitting `a + [c] + b` at a whitespace character `c` gives the words of `a` followed by the words of `b`, so no word spans whitespace; with `WordsJoin`'s `Words(w) == [w]` for a single word, the words are the maximal runs of non-whitespace, in order |
| QueryNormalizer.StripSymbols | project/linguamaster-backend/LinguaMaster/search/services.py:145 | the regex substitution never lengthens the text and keeps only word characters, whitespace and hyphens; a text of such characters only is returned unchanged, and a text with none of them becomes empty |
| QueryNormalizer.StripSymbolsAppend | project/linguamaster-backend/LinguaMaster/search/services.py:145 | the substitution works character by character: stripping `a + b` gives the stripped `a` followed by the stripped `b`, so kept characters stay, in order |
| QueryNormalizer.CleanQueryShape | project/linguamaster-backend/LinguaMaster/search/services.py:142-146 | a cleaned query is lowercase, contains only word characters, spaces and hyphens, and neither starts nor ends with a space |
| QueryNormalizer.CleanQuery | project/linguamaster-backend/LinguaMaster/search/services.py:142-146 | `_clean_query`: collapse whitespace, drop symbols, strip, lowercase, in that order. `CleanQueryShape` states the shape of the result, and `CleanQueryNotIdempotent` that a second pass can change it |
| QueryNormalizer.WordsJoin | project/linguamaster-backend/LinguaMaster/search/services.py:144 | splitting the space-join of non-empty whitespace-free words gives the words back |
| QueryNormalizer.CollapseIdempotent | project/linguamaster-backend/LinguaMaster/search/services.py:144 | `' '.join(s.split())` applied twice equals applying it once |
| QueryNormalizer.CleanQueryNotIdempotent | project/linguamaster-backend/LinguaMaster/search/services.py:142-146 | for lower-case letters a and b, cleaning "a ! b" gives "a  b", and cleaning that gives "a b", so cleaning is not idempotent |
| Text.LowerChar | project/linguamaster-backend/LinguaMaster/search/services.py:146 | `lower()` on one character: an ASCII capital becomes the same letter in lower case, and every other character is unchanged; word characters stay word characters |
| Text.TrimLeft | project/linguamaster-backend/LinguaMaster/search/services.py:146 | the removed prefix is all whitespace and what remains is empty or starts with a non-space |
| Text.TrimRight | project/linguamaster-backend/LinguaMaster/search/services.py:146 | the removed suffix is all whitespace and what remains is empty or ends with a non-space |
| Text.TrimEnds | project/linguamaster-backend/LinguaMaster/search/services.py:7 | `strip()` gives text with non-space ends, and gives the empty string exactly when the input is all whitespace |
| Text.TrimChars | project/linguamaster-backend/LinguaMaster/search/services.py:7 | every character of the stripped text occurs in the input |
| Text.IsSubstringAt | project/linguamaster-backend/LinguaMaster/search/services.py:39-40 | containment holds exactly when the needle occurs at some index of the haystack |
| Text.EmptyQueryMatches | project/linguamaster-backend/LinguaMaster/search/services.py:38-41 | an empty cleaned query is contained in every field |
| Text.IContains | project/linguamaster-backend/LinguaMaster/search/services.py:39-40 | Django's `__icontains`: the lowered query is a substring of the lowered field. `IsSubstringAt` states containment positionally, `IContainsIgnoresCase` that the case of ASCII letters on either side does not matter, and `EmptyQueryMatches` that the empty query matches every field |
| Text.IContainsIgnoresCase | project/linguamaster-backend/LinguaMaster/search/services.py:39-40 | if two fields, and two queries, differ only in the case of ASCII letters, the containment verdicts are equal |
| Retrieval.FilterValue | project/linguamaster-backend/LinguaMaster/search/services.py:32-36 | a filter applies exactly when its key is present with a non-empty value, and then it carries that value |
| Retrieval.Preview | project/linguamaster-backend/LinguaMaster/search/services.py:48 | an empty text gives ''; a non-empty text gives its first min(budget, length) characters followed by '...', including when nothing was cut |
| Retrieval.CourseSelected | project/linguamaster-backend/LinguaMaster/search/services.py:30-40 | the filter chain of `_search_courses`: active, the language and level filters honoured when present, and the query contained in the title or the description. `CourseMatches` and `MatchesCounted` state that the retrieval returns exactly these courses, up to the cap |
| Retrieval.CourseMatches | project/linguamaster-backend/LinguaMaster/search/services.py:30-54 | at most 20 courses; each is active, honours the language and level filters, and contains the query in its title or description; newest first; any selected course that was left out is no newer than every returned one, and then 20 were returned; the exact count and the absence of repeats are stated by `MatchesCounted` |
| Retrieval.MatchesCounted | project/linguamaster-backend/LinguaMaster/search/services.py:38-139 | each retrieval returns exactly min(cap, number of selected records) records (cap 20, or 10 for users), and returns no record more often than the store holds it |
| Retrieval.SearchCourses | project/linguamaster-backend/LinguaMaster/search/services.py:43-55 | one course hit per match, in order, with relevance 1.0 and a 200-character description preview |
| Retrieval.LessonSelected | project/linguamaster-backend/LinguaMaster/search/services.py:58-68 | the filter chain of `_search_lessons`: active in an active course, the course_id filter honoured when present, and the query contained in the title or the content. `LessonMatches` and `MatchesCounted` state that the retrieval returns exactly these lessons, up to the cap |
| Retrieval.LessonMatches | project/linguamaster-backend/LinguaMaster/search/services.py:57-82 | at most 20 lessons, each active in an active course, honouring the course_id filter and containing the query in its title or content; newest first; complete up to the cap; the exact count and the absence of repeats are stated by `MatchesCounted` |
| Retrieval.SearchLessons | project/linguamaster-backend/LinguaMaster/search/services.py:71-83 | one lesson hit per match, in order, with relevance 0.8, a 150-character content preview and the course's title and id |
| Retrieval.ExerciseSelected | project/linguamaster-backend/LinguaMaster/search/services.py:86-97 | the filter chain of `_search_exercises`: active in an active lesson of an active course, the exercise_type filter honoured when present, and the query contained in the title or the question. `ExerciseMatches` and `MatchesCounted` state that the retrieval returns exactly these exercises, up to the cap |
| Retrieval.ExerciseMatches | project/linguamaster-backend/LinguaMaster/search/services.py:85-112 | ordering by the timestamp the corrected model adds to Exercise: at most 20 exercises, each active in an active lesson of an active course, honouring the exercise_type filter and containing the query in its title or question; newest first; complete up to the cap; the exact count and the absence of repeats are stated by `MatchesCounted` |
| Retrieval.SearchExercises | project/linguamaster-backend/LinguaMaster/search/services.py:100-113 | one exercise hit per match, in order, with relevance 0.6, a 100-character question preview and the lesson and course titles |
| Retrieval.ResolveOrdering | project/linguamaster-backend/LinguaMaster/search/services.py:98 | `order_by` succeeds exactly when the term, without its leading '-', names a field of the model |
| Retrieval.SearchExercisesAsWritten | project/linguamaster-backend/LinguaMaster/search/services.py:85-113 | `_search_exercises` as written: the ordering on `-created_at` is resolved first, and its FieldError is the result when it fails. `ExerciseSearchAlwaysFails` states that it always fails |
| Retrieval.ExerciseSearchAlwaysFails | project/linguamaster-backend/LinguaMaster/search/services.py:98 | as written, the exercise search fails with a FieldError on `created_at` for every store, query and filter set |
| Retrieval.NoExerciseTimestamp | project/linguamaster-backend/LinguaMaster/courses/models.py:104-143 | the Exercise model has no `created_at` field |
| Retrieval.UserSelected | project/linguamaster-backend/LinguaMaster/search/services.py:116-125 | the filter chain of `_search_users`: active, the user_type filter honoured when present, and the query contained in the username, email, first or last name. `UserMatches` and `MatchesCounted` state that the retrieval returns exactly these users, up to the cap |
| Retrieval.UserMatches | project/linguamaster-backend/LinguaMaster/search/services.py:115-139 | at most 10 users, each active, honouring the user_type filter and containing the query in username, email, first or last name; most recently joined first; complete up to the cap; the exact count and the absence of repeats are stated by `MatchesCounted` |
| Retrieval.DisplayName | project/linguamaster-backend/LinguaMaster/search/services.py:132 | blank first and last names give the username; otherwise the name is the stripped "first last" and has non-space ends |
| Retrieval.SearchUsers | project/linguamaster-backend/LinguaMaster/search/services.py:128-140 | one user hit per match, in order, with relevance 0.9 and the display name |
| Retrieval.SearchUsersAsWritten | project/linguamaster-backend/LinguaMaster/search/services.py:115-140 | `_search_users` as written: an empty match list gives no hits, and the first matching user raises AttributeError on `get_full_name`. `UserSearchFailsOnAnyMatch` states when it fails |
| Retrieval.UserSearchFailsOnAnyMatch | project/linguamaster-backend/LinguaMaster/search/services.py:132 | as written, the user search raises exactly when some active user passes the filter and matches the query |
| Ranking.Select | project/linguamaster-backend/LinguaMaster/search/services.py:38-41 | filtering returns only elements of the input that satisfy the predicate, and every satisfying element of the input is returned |
| Ranking.SelectCounts | project/linguamaster-backend/LinguaMaster/search/services.py:38-41 | each element occurs in the filtered result exactly as often as in the input when it satisfies the predicate, and not at all otherwise |
| Ranking.SelectAppend | project/linguamaster-backend/LinguaMaster/search/services.py:38-41 | filtering distributes over concatenation, so the original order is kept |
| Ranking.TopByKeyCounts | project/linguamaster-backend/LinguaMaster/search/services.py:38-54 | the top elements are a sub-multiset of the selected elements, and so of the input: no record is repeated |
| Ranking.Insert | project/linguamaster-backend/LinguaMaster/search/services.py:163 | inserting into a descending list keeps it descending and adds exactly the one element |
| Ranking.SortDesc | project/linguamaster-backend/LinguaMaster/search/services.py:163 | the sort returns a permutation of its input in non-increasing key order |
| Ranking.SortDescStable | project/linguamaster-backend/LinguaMaster/search/services.py:163 | the sort is stable: elements with equal keys keep their input order |
| Ranking.SortedUnique | project/linguamaster-backend/LinguaMaster/search/services.py:163 | a key-sorted list is determined by its elements' per-key order, so a stable sort has exactly one result |
| Ranking.Take | project/linguamaster-backend/LinguaMaster/search/services.py:24 | slicing to a cap gives the first min(cap, length) elements |
| Ranking.TopByKey | project/linguamaster-backend/LinguaMaster/search/services.py:41 | the first `cap` selected elements in descending key order: sorted, selected, and complete up to the cap |
| Merge.CombineResults | project/linguamaster-backend/LinguaMaster/search/services.py:148-164 | the loop builds every source's scored hits in dictionary order and returns their stable descending sort |
| Merge.Merged | project/linguamaster-backend/LinguaMaster/search/services.py:148-164 | the list `_combine_results` returns: the stable descending sort by final score of the scored concatenation. `MergedIsStableSort`, `MergedMembers` and `MergedGroupOrder` state its properties, and `CombineResults` is proved equal to it |
| Merge.Score | project/linguamaster-backend/LinguaMaster/search/services.py:160 | `final_score` is the relevance times the weight looked up for the dictionary key, in hundredths. `WeightsNeverApply` and `ScoreListKeepsRelevance` state that the weight is always 1.0, so the final score equals the relevance |
| Merge.WeightsNeverApply | project/linguamaster-backend/LinguaMaster/search/services.py:153-160 | no dictionary key is a key of the weight table, so every weight is the default 1.0 |
| Merge.ScoreListKeepsRelevance | project/linguamaster-backend/LinguaMaster/search/services.py:160 | each hit's final score equals its relevance, and the hit is otherwise unchanged |
| Merge.ScoreAllSources | project/linguamaster-backend/LinguaMaster/search/services.py:151-161 | the scored concatenation is courses, lessons, exercises, users in that order |
| Merge.MergedIsStableSort | project/linguamaster-backend/LinguaMaster/search/services.py:163 | the merged list is a permutation of the scored concatenation, non-increasing in score, stable among equal scores, with every final score equal to the relevance |
| Merge.MergedMembers | project/linguamaster-backend/LinguaMaster/search/services.py:151-161 | every merged entry is a hit from one of the four sources |
| Merge.MergedGroupOrder | project/linguamaster-backend/LinguaMaster/search/services.py:151-163 | with the fixed relevances, the merged list is all courses, then users, then lessons, then exercises, each in retrieval order |
| RegisterSerializer.Any | project/linguamaster-backend/LinguaMaster/users/serializers.py:23 | `any(...)` holds exactly when some character satisfies the predicate |
| RegisterSerializer.ValidatePassword | project/linguamaster-backend/LinguaMaster/users/serializers.py:20-29 | acceptance holds exactly when the password has at least 8 characters, an upper-case letter, a lower-case letter and a digit; an accepted password is returned unchanged; each rejection carries the message of the first failing check, in source order |
| RegisterSerializer.VerdictIgnoresOrder | project/linguamaster-backend/LinguaMaster/users/serializers.py:20-29 | rearranging a password's characters changes neither the verdict nor the rejection message |
| RegisterSerializer.AcceptedStaysAccepted | project/linguamaster-backend/LinguaMaster/users/serializers.py:20-29 | appending characters to an accepted password keeps it accepted |

## Left out

- The database, ORM and HTTP layers are not modelled. Each table is a sequence in a `Store`, and the views, chat, practice and analytics modules are not part of this model.
- Ties in `order_by` are not modelled. The database leaves the order of records with equal timestamps open; the model fixes the store's order, and the contracts state only what every order satisfies.
- Non-string filter values, and a filter `course_id` that is not a valid UUID, are not modelled. Filters are a map from strings to strings.
- Retrieval.LessonMatches: the `course_id` filter is compared with the course id by string equality. Django parses the value through `uuid.UUID`, so a non-canonical spelling of a valid UUID (upper case, no hyphens, braces, a `urn:uuid:` prefix) matches in the source but not in the model. Record ids are the canonical lower-case form, so canonical spellings agree.
- `query=None` is the empty string, and `filters=None` is the empty map.
- The requesting user is only modelled as passed or not passed, which is what `if user` tests.
- Character classes are ASCII only. `\w`, `isupper`, `islower`, `isdigit` and `lower` cover ASCII letters, digits and `_`; Unicode letters and case mappings are not modelled. Whitespace is Python's full `str.isspace` set.
- Floating-point scores are integers in hundredths, which are exact for the relevances and weights involved.
- The results are values. Adding `final_score` to each dictionary in place is not modelled, and neither is aliasing between `results` and `combined`.
- The serializer's own `CharField(min_length=8)` and whitespace trimming, which run before `validate_password`, are not part of this model.
- Records' `id` fields are strings, so `str(uuid)` is not modelled.

## Findings

| source | as written | input that shows it | evidently intended | confidence | as-written member | corrected member |
|---|---|---|---|---|---|---|
| project/linguamaster-backend/LinguaMaster/search/services.py:98 | `_search_exercises` orders by `-created_at`, but the Exercise model has no `created_at` field, so Django raises FieldError | any query of two or more characters, with any filters and any database | exercises ordered newest first, like courses and lessons | high, not executed | Retrieval.ExerciseSearchAlwaysFails | Retrieval.ExerciseMatches |
| project/linguamaster-backend/LinguaMaster/search/services.py:132 | `user.get_full_name()` is called on a User derived from AbstractBaseUser, which does not define it, so AttributeError is raised | with the exercise ordering fixed (otherwise the FieldError at line 98 comes first, since line 16 runs before line 17), a search with a requesting user whose query matches one active user's username | the display name is "first last", stripped, falling back to the username | high, not executed | Retrieval.UserSearchFailsOnAnyMatch | Retrieval.DisplayName |
