# Analytics Vidhya free-course search: a Dafny model of the ranking core

The repository ranks a catalogue of free online courses against a free-text
query. Offline, `create_embedding.py` gives every scraped course an embedding
of its title, of its summary (`small_description` and `description` joined by
a space) and of each lesson, written as `"{chapter} : {lesson}"` and listed
chapter by chapter. Online, `find_relevant_courses` in `app.py` encodes the
query and scores every course three ways: title, summary, and best lesson
(`0` for a course without lessons). It keeps a course when any one of the
three scores reaches 0.4. It ranks the kept courses by their three scores
sorted in descending order, compared lexicographically with a stable
descending sort. It cuts displayed descriptions to 60 characters plus `...`
and numbers the rows from 1. The offline script
`preprocessing-files/find_matching.py` runs the same ranking at 0.3 and
returns titles only.

The sentence encoder and the cosine similarity are parameters of the model.
The encoder is `string -> Option<seq<real>>` and the similarity is
`(seq<real>, seq<real>) -> Option<real>`. `None` stands for a call that
raises. A course is a JSON object, so every key the code reads is an
`Option` field, and `None` is a missing key (`KeyError`). The threshold is
a parameter; 0.4 and 0.3 are the constants `App.LiveThreshold` and
`Matching.OfflineThreshold`.

Modules, one per component:

- `Wrappers` (wrappers.dfy): `Option`.
- `Catalog` (catalog.dfy): the course, chapter and lesson records.
- `Scoring` (scoring.dfy): the three scores, the gate and the descending
  triple. Both call sites use it.
- `RankOrder` (rank_order.dfy): Python's lexicographic list comparison
  and the stable `sorted(..., reverse=True)`.
- `App` (app.dfy): the live search.
- `Matching` (find_matching.dfy): the offline matching script.
- `Embedding` (create_embedding.dfy): the embedding script. Its loop
  updates an `array` of course records in place.

## Model

| member | source | states |
|---|---|---|
| `Scoring.Score` | app.py:41-51 | A course gets its three scores iff it has `title_embedding`, `sld_embedding` and `lesson_embeddings`, every lesson has an `embedding`, and no similarity call raises. The title and summary scores are then those calls' results. The lesson score is described by `Scoring.LessonScoreIsMax`. The same scoring appears at preprocessing-files/find_matching.py:22-32. |
| `Scoring.MaxOrZero` | app.py:51 | The lesson score is 0 when there are no lesson scores. Otherwise it is one of them and no smaller than any of them. |
| `Scoring.LessonScores` | app.py:47-50 | The per-lesson similarity list exists iff every lesson has an `embedding` that the similarity accepts. It then has one score per lesson, in lesson order. |
| `Scoring.LessonScoreIsMax` | app.py:47-51 | A scored course's lesson score bounds every lesson's similarity from above and is attained by some lesson. It is 0 when the course has no lessons. |
| `Scoring.SortDesc3` | app.py:61 | The key is non-increasing and is a permutation (as a multiset) of the title, summary and lesson scores. |
| `Scoring.Passes` | app.py:54-59 | The inclusion gate is an inclusive OR over the three raw scores, with one threshold for all three. `Scoring.GateIsBestScore` shows that it holds iff the best score reaches the threshold. |
| `Scoring.GateIsBestScore` | app.py:59-61 | The OR-gate on the raw scores holds iff the first element of the sorted key reaches the threshold. |
| `Scoring.Assess` | app.py:41-61 | A course raises iff `Scoring.Score` fails, that is, iff a scoring key is missing or a similarity call raises. It is kept iff it is scored and one raw score is at least the threshold. A kept course's key is its title, summary and lesson scores sorted in descending order: a non-increasing permutation of the three raw scores. |
| `Scoring.LowerThresholdKeeps` | preprocessing-files/find_matching.py:33-37 | A course kept at a higher threshold (0.4) is kept at a lower one (0.3) with the same key. |
| `RankOrder.AtLeastIsTotalOrder` | preprocessing-files/find_matching.py:43-45 | The lexicographic comparison of triples is reflexive, total, antisymmetric and transitive. |
| `RankOrder.AtLeast` | preprocessing-files/find_matching.py:43-45 | Python's `>=` on the score lists: the first differing element decides. `RankOrder.AtLeastIsTotalOrder` shows it is a total order. |
| `RankOrder.Insert` | app.py:78 | Inserts an entry before the first entry whose key it is at least. Its properties are stated by `RankOrder.InsertPermutes`, `InsertKeepsOrder`, `InsertIsStable` and `InsertIgnoresItem`. |
| `RankOrder.SortDesc` | app.py:78 | `sorted(results, key=score, reverse=True)`. `RankOrder.SortDescCorrect` shows it is a permutation with non-increasing keys and stable ties, and `RankOrder.SortedArrangementIsUnique` shows that these properties determine it. |
| `RankOrder.InsertPermutes` | app.py:78 | Inserting an entry adds exactly that entry to the multiset of entries. |
| `RankOrder.InsertKeepsOrder` | app.py:78 | Inserting into a list with non-increasing keys keeps the keys non-increasing. |
| `RankOrder.InsertIsStable` | app.py:78 | An inserted entry goes before the existing entries with its own key. The order among keys it does not have is unchanged. |
| `RankOrder.SortDescCorrect` | app.py:78 | The sort returns a permutation of its input. Its keys are lexicographically non-increasing, and entries with equal keys keep their input order. |
| `RankOrder.WithScoreMembers` | app.py:78 | Every entry listed under a key is an entry of the list and carries that key. |
| `RankOrder.SortedArrangementIsUnique` | app.py:78 | Two lists with non-increasing keys and the same entries, in the same order, under every key are equal. So the sort is exactly Python's stable reversed sort. |
| `RankOrder.Items` | preprocessing-files/find_matching.py:48 | The item list has one item per ranked entry, at the same position. |
| `RankOrder.Relabel` | preprocessing-files/find_matching.py:41 | Relabelling keeps length, position and key of each entry and changes only its item. |
| `RankOrder.SortIgnoresItems` | preprocessing-files/find_matching.py:45 | The ranked order depends on the keys alone: relabelling before or after sorting gives the same list. |
| `RankOrder.InsertIgnoresItem` | preprocessing-files/find_matching.py:45 | Where an entry is inserted depends on its key alone. |
| `App.Truncate` | app.py:66 | A description of at most 60 characters is shown unchanged. A longer one is shown as its first 60 characters followed by `...`, 63 characters in all. |
| `App.TruncateIsStable` | app.py:66 | A displayed description has at most 63 characters, and truncating it again changes nothing. |
| `App.Entry` | app.py:39-74 | One iteration of the live loop: the course raises, is excluded, or is kept with its display fields and key. `App.EntryKeptIff` states exactly when it is kept and what it holds. |
| `App.EntryKeptIff` | app.py:38-69 | A course enters the results iff it can be scored, has `title`, `small_description` and `url`, and one raw score is at least the threshold (inclusive). Its entry then holds its title, truncated description and url, with the descending permutation of its scores as key. |
| `App.Candidates` | app.py:35-74 | The `results` list after the loop. `App.CandidatesSplit` and `App.SkippedCourse` state how it builds up, and `App.CollectCandidates` is proved equal to it. |
| `App.CandidatesSplit` | app.py:38-74 | The results of a catalogue are the results of its parts, concatenated in catalogue order. |
| `App.SkippedCourse` | app.py:71-74 | A course whose processing raises is skipped, and the courses before and after it give their results unchanged. |
| `App.CollectCandidates` | app.py:35-74 | The scoring loop builds exactly the per-course results, in catalogue order. |
| `App.Display` | app.py:84 | There is one row per ranked result. Row `i` (0-based) has rank `i + 1` and that result's title, description and url. |
| `App.Ranking` | app.py:76-86 | The table for an encoded query. `App.RankingIsOrdered` states its rows. |
| `App.RankingIsOrdered` | app.py:76-86 | The rows are the kept courses: one row each, numbered from 1, ordered by non-increasing key, with equal keys in catalogue order. |
| `App.EmptyCatalogue` | app.py:35 | An empty catalogue gives an empty table when the query encodes. |
| `App.SearchResult` | app.py:26-86 | What `find_relevant_courses` returns. `App.FindRelevantCourses` shows the error row for an encoder failure and the ranked table otherwise, and `App.EmptyCatalogue` covers the empty catalogue. |
| `App.FindRelevantCourses` | app.py:26-86 | A query that cannot be encoded gives exactly the row `["Error", "Unable to encode query."]`. Otherwise the result is the ranked table of kept courses. |
| `App.Search` | app.py:89-91 | `search` returns the result of `find_relevant_courses` at threshold 0.4. |
| `Matching.Step` | preprocessing-files/find_matching.py:21-41 | One iteration of the offline loop. `Matching.StepKeptIff` states exactly when it keeps a course and what it keeps. |
| `Matching.StepKeptIff` | preprocessing-files/find_matching.py:20-41 | A course enters the offline results iff it can be scored, has a `title`, and one raw score is at least the threshold (inclusive). Its entry is its title with the descending permutation of its scores. |
| `Matching.Candidates` | preprocessing-files/find_matching.py:18-41 | The offline `results` list, or failure once a course raises. `Matching.RaisedIsFinal` and `Matching.SucceedsIffNoneRaises` state when it fails. |
| `Matching.StepRaisesIff` | preprocessing-files/find_matching.py:21-41 | A course makes the offline loop raise iff it cannot be scored (a missing key or a raising similarity call), or it passes the gate and has no `title`. |
| `Matching.RaisedIsFinal` | preprocessing-files/find_matching.py:20-41 | Once a course raises, the whole call fails, whatever follows it. |
| `Matching.SucceedsIffNoneRaises` | preprocessing-files/find_matching.py:20-41 | The offline loop succeeds iff no course raises. |
| `Matching.MatchResult` | preprocessing-files/find_matching.py:13-48 | What the offline `find_relevant_courses` returns: the items of the sorted results, via `RankOrder.Items`. `Matching.MatchResultIsRanked` states its order and length. |
| `Matching.MatchResultIsRanked` | preprocessing-files/find_matching.py:43-48 | A successful call returns one title per kept course. Their order has non-increasing keys, and equal keys keep catalogue order. |
| `Matching.FindRelevantCourses` | preprocessing-files/find_matching.py:13-48 | The method returns the titles of the ranked kept courses. It fails (`None`) when encoding the query or processing any course raises. |
| `Matching.FindRelevantCoursesOffline` | preprocessing-files/find_matching.py:33-35 | The script ranks at threshold 0.3. |
| `Matching.SameCandidatesAsLiveSearch` | preprocessing-files/find_matching.py:20-41 | Two conditions must hold: every course has `small_description` and `url`, and the offline loop succeeds (no course raises). Then the offline loop keeps the same courses, with the same keys and in the same order, as the live loop. |
| `Matching.RelabelAppend` | preprocessing-files/find_matching.py:41 | Relabelling distributes over concatenation. |
| `Matching.SameRankingAsLiveSearch` | preprocessing-files/find_matching.py:43-48 | Two conditions must hold: every course has `small_description` and `url`, and the offline call succeeds. Then, at the same threshold, the offline titles are the titles of the live rows, in the same order. The scraper always writes both keys (preprocessing-files/scraper.py:22-23), so the first condition holds for every catalogue the scripts produce. Without it the two can differ: a kept course without `small_description` is listed offline and skipped live. |
| `Embedding.SummaryText` | preprocessing-files/create_embedding.py:15 | The summary text is `small_description`, one space, then `description`. |
| `Embedding.LessonText` | preprocessing-files/create_embedding.py:29 | The lesson text is the chapter title, `" : "`, then the lesson title. |
| `Embedding.ChapterSlots` | preprocessing-files/create_embedding.py:28 | There is one slot per lesson of a chapter, in lesson order, each naming that chapter. |
| `Embedding.Flatten` | preprocessing-files/create_embedding.py:27-28 | The lessons of a curriculum in the nested loop's order. `Embedding.FlattenLength` and `Embedding.FlattenIsChapterMajor` state its length and order. |
| `Embedding.LessonCount` | preprocessing-files/create_embedding.py:26-35 | The total number of lessons over all chapters, the length `Embedding.FlattenLength` proves. |
| `Embedding.FlattenLength` | preprocessing-files/create_embedding.py:26-35 | There is one lesson entry per lesson across all chapters. An empty curriculum gives an empty list. |
| `Embedding.FlattenSplit` | preprocessing-files/create_embedding.py:27 | The lessons of a curriculum are the lessons of its parts, concatenated. |
| `Embedding.FlattenIsChapterMajor` | preprocessing-files/create_embedding.py:27-28 | Lesson `j` of chapter `i` sits at position `(lessons of chapters before i) + j`. |
| `Embedding.EntriesSpec` | preprocessing-files/create_embedding.py:28-35 | The records exist iff every lesson text encodes. Then there is one record per lesson, in order, holding the lesson, the chapter and the embedding of `"{chapter} : {lesson}"`. |
| `Embedding.Entries` | preprocessing-files/create_embedding.py:28-35 | The `lesson_embeddings` records, or failure when an encoder call raises. `Embedding.EntriesSpec` states them. |
| `Embedding.EntriesAppendOne` | preprocessing-files/create_embedding.py:31-35 | Encoding one more lesson appends exactly its record. |
| `Embedding.BuildLessonEmbeddings` | preprocessing-files/create_embedding.py:26-35 | The nested loop builds exactly the records of the chapter-major lesson list, or fails when an encoder call raises. |
| `Embedding.Embedded` | preprocessing-files/create_embedding.py:12-38 | One iteration of the script's course loop. `Embedding.EmbeddedShape` and `Embedding.EmbeddedLesson` state its result. |
| `Embedding.EmbeddedShape` | preprocessing-files/create_embedding.py:12-38 | A course is embedded iff every key the loop reads is present and every encoder call succeeds. The embedded course keeps all scraped keys. It gains `title_embedding`, `sld_embedding` and `lesson_embeddings`, with one lesson entry per lesson. |
| `Embedding.EmbeddedLesson` | preprocessing-files/create_embedding.py:27-35 | Each lesson is recorded at its chapter-major position, with its lesson and chapter titles unchanged and the embedding of its lesson text. |
| `Embedding.EmbeddedIsScorable` | preprocessing-files/create_embedding.py:21-38 | A course written by the script has every key the search reads. So it is always scored, provided the similarity accepts the query against each vector the encoder produced for that course's title, summary and lesson texts. |
| `Embedding.EmbedCatalog` | preprocessing-files/create_embedding.py:12-38 | The loop succeeds iff every course embeds, and then each array slot holds its embedded course. On failure, the earlier courses are embedded, the failing one keeps its scraped keys and the later ones are untouched. |

## Left out

- The sentence encoder (`SentenceTransformer.encode`) and `cosine_similarity` are parameters. The model says nothing about their numbers, and scores are `real`, so NaN and floating-point rounding are not modelled.
- Loading the model and the JSON files, the fallbacks to an empty catalogue, and writing the output JSON are I/O (app.py:7-23, create_embedding.py:8-9, 41-42). The model takes the catalogue as an input and returns whether the embedding loop succeeded.
- The Gradio interface and its launch (app.py:97-128) are left out.
- The sort-failure row (app.py:79-81) and the catch-all in `search` (app.py:92-94) are left out. They fire only on runtime type errors, which typed records rule out.
- Diagnostic `print` calls are left out, as is the demo query with its printing in find_matching.py:51-57.
- `preprocessing-files/scraper.py` and `preprocessing-files/get_url.py` are not part of this model. They are HTTP requests and HTML parsing.
- The three equal per-field thresholds of each call site are one parameter.
- The curriculum is a list of (chapter, lessons) pairs in the dictionary's insertion order. Uniqueness of chapter titles is not modelled.
- Embedding.EmbedCatalog: on failure, it does not say which embedding keys the failing course had already gained. The script then exits without writing anything.
